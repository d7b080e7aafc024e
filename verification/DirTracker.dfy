/** Creating a chain of directories so that a failed transfer can undo exactly its own,
    while others create directories and files next to it. */
module DirTracker {
  import opened Common

  /** A path is its components below the drive or share; [] is the drive itself. */
  type Path = seq<string>

  datatype Addition = Addition(dirs: set<Path>, files: set<Path>)

  datatype Made = Created | AlreadyThere | Refused

  predicate Tree(dirs: set<Path>, files: set<Path>) {
    && [] in dirs && dirs !! files
    && forall p | p in dirs + files && p != [] :: p[..|p| - 1] in dirs
  }

  predicate Inside(child: Path, dir: Path) {
    |child| == |dir| + 1 && child[..|dir|] == dir
  }

  ghost predicate SomebodyInside(mine: set<Path>, others: set<Path>) {
    exists dir, child :: dir in mine && child in others && Inside(child, dir)
  }

  predicate IsEmpty(dir: Path, dirs: set<Path>, files: set<Path>) {
    forall p | p in dirs + files :: !Inside(p, dir)
  }

  /** Everything the world adds before its n-th turn. */
  ghost function Added(world: nat -> Addition, n: nat): Addition {
    if n == 0 then Addition({}, {}) else
      var before := Added(world, n - 1);
      Addition(before.dirs + world(n - 1).dirs, before.files + world(n - 1).files)
  }

  lemma {:induction false} NothingAdded(world: nat -> Addition, n: nat)
    requires forall k: nat | k < n :: world(k) == Addition({}, {})
    ensures Added(world, n) == Addition({}, {})
  {
    if n > 0 {
      NothingAdded(world, n - 1);
    }
  }

  lemma {:induction false} NeverAdded(world: nat -> Addition, n: nat, path: Path)
    requires forall k: nat | k < n :: path !in world(k).dirs + world(k).files
    ensures path !in Added(world, n).dirs + Added(world, n).files
  {
    if n > 0 {
      NeverAdded(world, n - 1, path);
    }
  }

  function Members(paths: seq<Path>): set<Path> {
    if paths == [] then {} else {paths[0]} + Members(paths[1..])
  }

  predicate LongerThan(path: Path, others: set<Path>) {
    forall p | p in others :: |path| > |p|
  }

  predicate AllAbove(paths: set<Path>, path: Path) {
    forall p | p in paths :: p <= path
  }

  /** The directories on the way to a path, from the drive down to the path itself. */
  function Above(path: Path): set<Path> {
    set i | 0 <= i <= |path| :: path[..i]
  }

  lemma AboveNext(path: Path, i: nat)
    requires i < |path|
    ensures path[..i + 1] != [] && path[..i + 1][..i] == path[..i]
    ensures Above(path[..i + 1]) == Above(path[..i]) + {path[..i + 1]}
    ensures path[..i + 1] !in Above(path[..i])
    ensures forall p: Path | p <= path[..i] :: |p| < |path[..i + 1]| && p <= path[..i + 1]
  {
    var up, here := path[..i], path[..i + 1];
    forall k | 0 <= k <= i ensures here[..k] == up[..k] {
    }
    assert here[..i + 1] == here;
    forall p | p in Above(here) ensures p in Above(up) + {here} {
      var k :| 0 <= k <= i + 1 && p == here[..k];
      assert k <= i ==> p == up[..k];
    }
    forall p | p in Above(up) ensures p in Above(here) {
      var k :| 0 <= k <= i && p == up[..k];
      assert p == here[..k];
    }
  }

  lemma {:induction false} AboveInTree(dirs: set<Path>, files: set<Path>, path: Path)
    requires Tree(dirs, files) && path in dirs
    ensures Above(path) <= dirs
  {
    if path != [] {
      var up := path[..|path| - 1];
      AboveInTree(dirs, files, up);
      forall i | 0 <= i <= |path| ensures path[..i] in dirs {
        if i == |path| {
          assert path[..i] == path;
        } else {
          assert path[..i] == up[..i] && up[..i] in Above(up);
        }
      }
    }
  }

  predicate LeafFirst(paths: seq<Path>) {
    paths != [] ==> LongerThan(paths[0], Members(paths[1..])) && LeafFirst(paths[1..])
  }

  /** What is held is what was there, what others added and what is ours, apart from both. */
  predicate Accounted(held: set<Path>, was: set<Path>, theirs: set<Path>, ours: set<Path>) {
    held == was + theirs + ours && (was + theirs) !! ours
  }

  lemma MoreOfTheirs(held: set<Path>, was: set<Path>, theirs: set<Path>, ours: set<Path>, more: set<Path>)
    requires Accounted(held, was, theirs, ours)
    ensures Accounted(held + more, was, theirs + (more - held), ours)
  {}

  lemma AddedGrows(world: nat -> Addition, n: nat, dirs: set<Path>, files: set<Path>)
    ensures dirs <= Added(world, n).dirs ==> dirs + world(n).dirs <= Added(world, n + 1).dirs
    ensures files <= Added(world, n).files ==> files + world(n).files <= Added(world, n + 1).files
  {}

  /** A disk that others use as well. Before each of our operations they add what `world`
      says, as long as the result is a tree; nobody else removes anything. `refuses` and
      `stuck` say where creating and removing fail for reasons of their own. */
  class Disk {
    const world: nat -> Addition
    const refuses: Path -> bool
    const stuck: Path -> bool
    var dirs: set<Path>
    var files: set<Path>
    var clock: nat
    // Where each directory and file came from.
    ghost var was: Addition
    ghost var theirs: Addition
    ghost var ours: Addition
    // Files of others whose content this transfer replaced with its own.
    ghost var replaced: set<Path>

    constructor (
      dirs: set<Path>, files: set<Path>, world: nat -> Addition, refuses: Path -> bool, stuck: Path -> bool
    )
      requires Tree(dirs, files)
      ensures Valid() && this.dirs == dirs && this.files == files && was == Addition(dirs, files)
      ensures ours == Addition({}, {}) && theirs == Addition({}, {}) && replaced == {}
    {
      this.dirs, this.files, this.world, this.refuses, this.stuck := dirs, files, world, refuses, stuck;
      clock := 0;
      was, theirs, ours, replaced := Addition(dirs, files), Addition({}, {}), Addition({}, {}), {};
    }

    /** Nothing but our own ever disappears: the disk holds what it held, what others added
        and what is left of ours, and ours is told apart from the rest. What others added
        is what the world had them add. */
    ghost predicate Valid()
      reads this
    {
      && Tree(dirs, files) && Tree(was.dirs, was.files)
      && Accounted(dirs, was.dirs, theirs.dirs, ours.dirs)
      && Accounted(files, was.files, theirs.files, ours.files)
      && theirs.dirs <= Added(world, clock).dirs && theirs.files <= Added(world, clock).files
      && replaced <= was.files + theirs.files
    }

    twostate predicate TheirsGrow()
      reads this
    {
      && was == old(was) && old(theirs.dirs) <= theirs.dirs && old(theirs.files) <= theirs.files
    }

    twostate predicate OnlyOthersAdd()
      reads this
    {
      TheirsGrow() && replaced == old(replaced)
    }

    method Others()
      requires Valid()
      modifies this
      ensures Valid() && OnlyOthersAdd() && ours == old(ours)
      ensures old(dirs) <= dirs && old(files) <= files
      ensures Quiet() ==> dirs == old(dirs) && files == old(files)
    {
      hide Accounted, Added, Tree;
      var more := world(clock);
      MoreOfTheirs(dirs, was.dirs, theirs.dirs, ours.dirs, more.dirs);
      MoreOfTheirs(files, was.files, theirs.files, ours.files, more.files);
      AddedGrows(world, clock, theirs.dirs, theirs.files);
      clock := clock + 1;
      if Tree(dirs + more.dirs, files + more.files) {
        theirs := Addition(theirs.dirs + (more.dirs - dirs), theirs.files + (more.files - files));
        dirs, files := dirs + more.dirs, files + more.files;
      }
    }

    method IsDir(path: Path) returns (yes: bool)
      requires Valid()
      modifies this
      ensures Valid() && OnlyOthersAdd() && ours == old(ours)
      ensures old(dirs) <= dirs && old(files) <= files
      ensures yes <==> path in dirs
      ensures Quiet() ==> dirs == old(dirs) && files == old(files)
    {
      Others();
      yes := path in dirs;
    }

    method MakeDir(path: Path) returns (r: Made)
      requires Valid()
      modifies this
      ensures Valid() && OnlyOthersAdd() && ours.files == old(ours.files)
      ensures old(dirs) <= dirs && old(files) <= files
      ensures ours.dirs == if r.Created? then old(ours.dirs) + {path} else old(ours.dirs)
      ensures r.Created? ==> path in dirs && path !in old(ours.dirs)
      ensures r.AlreadyThere? ==> path in dirs + files
      ensures r.Refused? ==> path !in dirs + files && (refuses(path) || path == [] || path[..|path| - 1] !in dirs)
      ensures r.Created? ==> !refuses(path)
      ensures Quiet() ==> files == old(files) && dirs == old(dirs) + if r.Created? then {path} else {}
      ensures Quiet() ==> (r.AlreadyThere? <==> path in old(dirs + files))
    {
      hide Tree, Added;
      Others();
      if path in dirs + files {
        return AlreadyThere;
      }
      if path == [] || path[..|path| - 1] !in dirs || refuses(path) {
        return Refused;
      }
      GrownIsTree(dirs, files, path);
      dirs := dirs + {path};
      ours := ours.(dirs := ours.dirs + {path});
      r := Created;
    }

    /** Removing refuses a directory that is not empty. The requires is the safety property:
        this call only ever tries to remove directories it created itself. */
    method RemoveDir(path: Path)
      requires Valid() && path in ours.dirs
      modifies this
      ensures Valid() && OnlyOthersAdd() && ours.files == old(ours.files)
      ensures old(dirs) - {path} <= dirs && old(files) <= files
      ensures ours.dirs == old(ours.dirs) || ours.dirs == old(ours.dirs) - {path}
      ensures path in ours.dirs ==> stuck(path) || !IsEmpty(path, dirs, files)
    {
      Others();
      if IsEmpty(path, dirs, files) && !stuck(path) {
        RemovedIsTree(dirs, files, path);
        dirs := dirs - {path};
        ours := ours.(dirs := ours.dirs - {path});
      }
    }

    /** Nobody else ever uses this name. */
    ghost predicate OnlyOurs(file: Path)
      reads this
    {
      file !in was.dirs + was.files && forall k: nat :: file !in world(k).dirs + world(k).files
    }

    /** A name nobody else uses is there only if we put it there. */
    lemma OnlyOursIsOurs(file: Path)
      requires Valid() && OnlyOurs(file)
      ensures file in dirs + files ==> file in ours.dirs + ours.files
    {
      NeverAdded(world, clock, file);
    }

    /** Write the staged file, under a name that only this transfer uses; the write may
        fail. */
    method Stage(file: Path, written: bool)
      requires Valid() && OnlyOurs(file) && file !in ours.dirs + ours.files
      requires file != [] && file[..|file| - 1] in dirs
      modifies this
      ensures Valid() && OnlyOthersAdd() && ours.dirs == old(ours.dirs) && old(dirs) <= dirs
      ensures ours.files == old(ours.files) + (if written then {file} else {})
    {
      Others();
      OnlyOursIsOurs(file);
      if written {
        files := files + {file};
        ours := ours.(files := ours.files + {file});
      }
    }

    /** Move the staged file into place. A directory of that name takes it in; a file of that
        name is replaced. */
    method Move(staged: Path, dest: Path, name: string) returns (landed: Path)
      requires Valid() && staged in ours.files && OnlyOurs(staged)
      requires dest != [] && dest[..|dest| - 1] in dirs && OnlyOurs(dest + [name])
      requires {dest, dest + [name]} !! ours.dirs + ours.files
      modifies this
      ensures Valid() && TheirsGrow() && ours.dirs == old(ours.dirs)
      ensures landed == dest || (landed == dest + [name] && dest in dirs)
      ensures landed in files && staged !in files
      ensures ours.files == old(ours.files) - {staged} + (if landed in was.files + theirs.files then {} else {landed})
      ensures replaced == old(replaced) + (if landed in was.files + theirs.files then {landed} else {})
    {
      hide Tree, Added;
      Others();
      landed := if dest in dirs then dest + [name] else dest;
      OnlyOursIsOurs(dest + [name]);
      assert landed[..|landed| - 1] == if dest in dirs then dest else dest[..|dest| - 1];
      MovedIsTree(dirs, files, staged, landed);
      if landed in files {
        replaced := replaced + {landed};
      } else {
        ours := ours.(files := ours.files + {landed});
      }
      files := files - {staged} + {landed};
      ours := ours.(files := ours.files - {staged});
    }

    /** Remove the staged file, if it was ever written. */
    method RemoveFile(file: Path)
      requires Valid() && OnlyOurs(file) && file !in ours.dirs
      modifies this
      ensures Valid() && OnlyOthersAdd() && ours.dirs == old(ours.dirs)
      ensures ours.files == if stuck(file) then old(ours.files) else old(ours.files) - {file}
    {
      Others();
      OnlyOursIsOurs(file);
      if file in files && !stuck(file) {
        files := files - {file};
        ours := ours.(files := ours.files - {file});
      }
    }

    /** Remove what this call created, leaf first. What stays is stuck or not empty. */
    method Prune(created: seq<Path>)
      requires Valid() && LeafFirst(created) && Members(created) == ours.dirs
      modifies this
      ensures Valid() && OnlyOthersAdd() && ours.files == old(ours.files)
      ensures ours.dirs <= old(ours.dirs) && old(files) <= files
      ensures Spent(ours.dirs)
    {
      hide Tree, Accounted, Added, IsEmpty;
      var i := 0;
      ghost var left: set<Path> := {};
      while i < |created|
        invariant 0 <= i <= |created| && Valid() && OnlyOthersAdd() && ours.files == old(ours.files)
        invariant LeafFirst(created[i..]) && ours.dirs == Members(created[i..]) + left
        invariant ours.dirs <= old(ours.dirs) && old(files) <= files
        invariant Spent(left) && forall p | p in left :: LongerThan(p, Members(created[i..]))
      {
        left := PruneOne(created[i], created[i..], left);
        assert created[i..][1..] == created[i + 1..];
        i := i + 1;
      }
      assert created[i..] == [];
    }

    method PruneOne(path: Path, ghost rest: seq<Path>, ghost left: set<Path>) returns (ghost stays: set<Path>)
      requires Valid() && rest != [] && path == rest[0] && LeafFirst(rest)
      requires ours.dirs == Members(rest) + left
      requires Spent(left) && forall p | p in left :: LongerThan(p, Members(rest))
      modifies this
      ensures Valid() && OnlyOthersAdd() && ours.files == old(ours.files) && ours.dirs <= old(ours.dirs)
      ensures old(files) <= files
      ensures ours.dirs == Members(rest[1..]) + stays
      ensures Spent(stays) && forall p | p in stays :: LongerThan(p, Members(rest[1..]))
    {
      ghost var dirsBefore, filesBefore := dirs, files;
      RemoveDir(path);
      forall p | p in left ensures stuck(p) || !IsEmpty(p, dirs, files) {
        if !stuck(p) {
          var child :| child in dirsBefore + filesBefore && Inside(child, p);
          assert child != path;
        }
      }
      stays := if path in ours.dirs then left + {path} else left;
    }

    /** These directories cannot be removed as things are. */
    ghost predicate Spent(left: set<Path>)
      reads this
    {
      forall p | p in left :: stuck(p) || !IsEmpty(p, dirs, files)
    }

    /** A directory that is not there cannot be made: a file is in the way, or making it is
        refused. */
    predicate Hindered(path: Path, dirs: set<Path>, files: set<Path>) {
      path !in dirs && (path in files || refuses(path))
    }

    /** None of the first i components was hindered, and just what was missing was made. */
    ghost predicate MadeSoFar(parts: Path, i: nat, wereDirs: set<Path>, wereFiles: set<Path>)
      requires i <= |parts|
      reads this
    {
      && (forall k | 0 < k <= i :: !Hindered(parts[..k], wereDirs, wereFiles))
      && dirs == wereDirs + Above(parts[..i]) && files == wereFiles
    }

    /** Make sure that one component is a directory, recording it if this call made it. */
    method Component(current: Path, created: seq<Path>) returns (there: bool, longer: seq<Path>)
      requires Valid() && LeafFirst(created) && Members(created) == ours.dirs && LongerThan(current, ours.dirs)
      requires current != [] && current[..|current| - 1] in dirs
      modifies this
      ensures Valid() && OnlyOthersAdd() && ours.files == old(ours.files)
      ensures LeafFirst(longer) && Members(longer) == ours.dirs && ours.dirs <= old(ours.dirs) + {current}
      ensures old(dirs) <= dirs && old(files) <= files
      ensures there ==> current in dirs
      ensures !there ==> Hindered(current, dirs, files)
      ensures Quiet() ==> files == old(files) && dirs == old(dirs) + if there then {current} else {}
      ensures Quiet() ==> (there <==> !Hindered(current, old(dirs), old(files)))
    {
      longer := created;
      there := IsDir(current);
      if !there {
        var r := MakeDir(current);
        if r.AlreadyThere? {
          there := IsDir(current);
        } else if r.Created? {
          Deeper(current, created);
          there, longer := true, [current] + created;
        }
      }
    }

    /** Create a path one component at a time. If some component cannot be made, remove what
        this call created. That happens only where a file is in the way or making is
        refused; on a disk left alone, exactly where it is. */
    method MakeDirs(parts: Path) returns (ok: bool, created: seq<Path>)
      requires Valid() && ours.dirs == {}
      modifies this
      ensures Valid() && OnlyOthersAdd() && ours.files == old(ours.files)
      ensures ok ==> parts in dirs && LeafFirst(created) && Members(created) == ours.dirs
      ensures !ok ==> Spent(ours.dirs)
      ensures AllAbove(ours.dirs, parts)
      ensures !ok ==> exists k | 0 < k <= |parts| :: refuses(parts[..k]) || parts[..k] in files
      ensures Quiet() ==> (ok <==> forall k | 0 < k <= |parts| :: !Hindered(parts[..k], old(dirs), old(files)))
      ensures Quiet() && ok ==> dirs == old(dirs) + Above(parts) && files == old(files)
    {
      var reached;
      ok, created, reached := Descend(parts);
      if ok {
        assert parts[..reached] == parts;
      } else {
        assert parts[..reached] <= parts;
        Prune(created);
      }
    }

    /** How far the descent came: i components are there, or the i-th could not be made. */
    ghost predicate Descended(parts: Path, i: nat, ok: bool, created: seq<Path>, wereDirs: set<Path>,
                              wereFiles: set<Path>)
      requires i <= |parts|
      reads this
    {
      && LeafFirst(created) && Members(created) == ours.dirs && AllAbove(ours.dirs, parts[..i])
      && (if ok then parts[..i] in dirs else i > 0 && (refuses(parts[..i]) || parts[..i] in files))
      && (Quiet() ==> if ok then MadeSoFar(parts, i, wereDirs, wereFiles)
                      else Hindered(parts[..i], wereDirs, wereFiles))
    }

    /** The components one after another, up to the first that cannot be made. */
    method Descend(parts: Path) returns (ok: bool, created: seq<Path>, i: nat)
      requires Valid() && ours.dirs == {}
      modifies this
      ensures Valid() && OnlyOthersAdd() && ours.files == old(ours.files)
      ensures i <= |parts| && Descended(parts, i, ok, created, old(dirs), old(files)) && (ok ==> i == |parts|)
    {
      created, ok, i := [], true, 0;
      RootIsThere();
      assert Descended(parts, 0, true, [], dirs, files);
      hide Tree, Accounted, Added, Above, Disk.Descended;
      while ok && i < |parts|
        invariant 0 <= i <= |parts| && Valid() && OnlyOthersAdd() && ours.files == old(ours.files)
        invariant Descended(parts, i, ok, created, old(dirs), old(files))
      {
        ok, created := DescendOne(parts, i, created, old(dirs), old(files));
        i := i + 1;
      }
    }

    method DescendOne(parts: Path, i: nat, sofar: seq<Path>, ghost wereDirs: set<Path>, ghost wereFiles: set<Path>)
      returns (ok: bool, created: seq<Path>)
      requires Valid() && i < |parts| && Descended(parts, i, true, sofar, wereDirs, wereFiles)
      modifies this
      ensures Valid() && OnlyOthersAdd() && ours.files == old(ours.files)
      ensures Descended(parts, i + 1, ok, created, wereDirs, wereFiles)
    {
      hide Tree, LeafFirst, Members, Accounted, Added, Above;
      AboveNext(parts, i);
      ghost var dirsBefore, filesBefore := dirs, files;
      ok, created := Component(parts[..i + 1], sofar);
      if Quiet() {
        MadeOneMore(parts, i + 1, wereDirs, wereFiles, dirsBefore, filesBefore, ok);
      }
    }

    lemma MadeOneMore(parts: Path, i: nat, wereDirs: set<Path>, wereFiles: set<Path>, before: set<Path>,
                      filesBefore: set<Path>, there: bool)
      requires 0 < i <= |parts| && before == wereDirs + Above(parts[..i - 1]) && filesBefore == wereFiles
      requires forall k | 0 < k < i :: !Hindered(parts[..k], wereDirs, wereFiles)
      requires there <==> !Hindered(parts[..i], before, filesBefore)
      requires files == filesBefore && dirs == before + if there then {parts[..i]} else {}
      ensures if there then MadeSoFar(parts, i, wereDirs, wereFiles) else Hindered(parts[..i], wereDirs, wereFiles)
    {
      AboveNext(parts, i - 1);
    }

    lemma RootIsThere()
      requires Valid()
      ensures [] in dirs && dirs == dirs + Above([])
    {}

    /** Undo a transfer that failed after its directories were made. */
    method CleanUp(staged: Path, created: seq<Path>)
      requires Valid() && LeafFirst(created) && Members(created) == ours.dirs
      requires OnlyOurs(staged) && staged !in ours.dirs
      modifies this
      ensures Valid() && OnlyOthersAdd() && ours.dirs <= old(ours.dirs)
      ensures ours.files == if stuck(staged) then old(ours.files) else old(ours.files) - {staged}
      ensures Spent(ours.dirs)
    {
      RemoveFile(staged);
      Prune(created);
    }

    /** Once its directories are made, a get that fails has written its staged file or not,
        and moved it into place or not; either way it is cleaned up. */
    method PutInPlace(
      parts: Path, leaf: string, name: string, created: seq<Path>, written: bool, moved: bool
    ) returns (landed: Option<Path>)
      requires Valid() && ours.files == {} && replaced == {} && leaf != name && parts in dirs
      requires OnlyOurs(parts + [name]) && OnlyOurs(parts + [leaf, name])
      requires LeafFirst(created) && Members(created) == ours.dirs && AllAbove(ours.dirs, parts)
      modifies this
      ensures Valid() && TheirsGrow() && Spent(ours.dirs) && ours.dirs <= old(ours.dirs)
      ensures landed.Some? <==> written && moved
      ensures landed.Some? ==> landed.value in {parts + [leaf], parts + [leaf, name]} && landed.value in files
      ensures landed.Some? ==> ours.files + replaced == {landed.value}
      ensures landed.None? ==> ours.files <= {parts + [name]} && replaced == {}
      ensures landed.None? && !stuck(parts + [name]) ==> ours.files == {}
      ensures landed.Some? || !stuck(parts + [name]) ==> parts + [name] !in files
    {
      hide Tree, LeafFirst, Members, IsEmpty, Added, Accounted, Above, AllAbove, Inside;
      var staged, dest := parts + [name], parts + [leaf];
      landed := None;
      AllAboveIsAbove(ours.dirs, parts);
      assert staged[..|staged| - 1] == parts && dest[..|dest| - 1] == parts;
      assert dest + [name] == parts + [leaf, name] && dest[|parts|] != staged[|parts|];
      Stage(staged, written);
      if written && moved {
        var there := Move(staged, dest, name);
        landed := Some(there);
      }
      CleanUp(staged, created);
      OursAside();
      OnlyOursIsOurs(staged);
    }

    /** The steps of a get that fails. */
    method TryGet(parts: Path, leaf: string, name: string, written: bool, moved: bool)
      returns (landed: Option<Path>)
      requires Valid() && ours == Addition({}, {}) && replaced == {} && leaf != name
      requires OnlyOurs(parts + [name]) && OnlyOurs(parts + [leaf, name])
      modifies this
      ensures Valid() && TheirsGrow() && Spent(ours.dirs) && AllAbove(ours.dirs, parts)
      ensures landed.Some? ==> written && moved && landed.value in files && parts + [leaf] !in was.dirs
      ensures landed.None? && written && moved ==>
        (parts + [leaf] in dirs || exists k | 0 < k <= |parts| :: refuses(parts[..k]) || parts[..k] in files)
      ensures Quiet() ==> (landed.Some? <==>
        && written && moved && parts + [leaf] !in old(dirs)
        && forall k | 0 < k <= |parts| :: !Hindered(parts[..k], old(dirs), old(files)))
      ensures landed.Some? ==> landed.value in {parts + [leaf], parts + [leaf, name]}
      ensures landed.Some? ==> ours.files + replaced == {landed.value}
      ensures landed.None? ==> ours.files <= {parts + [name]} && replaced == {}
      ensures landed.None? && !stuck(parts + [name]) ==> ours.files == {}
      ensures landed.Some? || !stuck(parts + [name]) ==> parts + [name] !in files
    {
      hide Tree, LeafFirst, Members, IsEmpty, Added, Accounted, Above, Inside;
      landed := None;
      var taken := IsDir(parts + [leaf]);
      if !taken {
        OursAside();
        var ok, created := MakeDirs(parts);
        if ok {
          landed := PutInPlace(parts, leaf, name, created, written, moved);
        }
      }
      AllAboveIsAbove(ours.dirs, parts);
      OnlyOursIsOurs(parts + [name]);
    }

    /** A get that fails: its destination is a directory, or its directories cannot all be
        made, or something goes wrong afterwards, with the staged file written or not and
        moved into place or not; then it is cleaned up. The staged file is gone unless it is
        stuck. A directory of ours that stays is stuck, or somebody put something into one
        of ours, or the file was moved into place. That happens unless the destination is a
        directory or the way to it is blocked by a file or a refusal. Left alone, the disk is
        as it was exactly when nothing was moved into place; otherwise the destination file
        and the directories above it stay, and nothing else. */
    method FailedGet(parts: Path, leaf: string, name: string, written: bool, moved: bool)
      returns (landed: Option<Path>)
      requires Valid() && ours == Addition({}, {}) && replaced == {} && leaf != name
      requires OnlyOurs(parts + [name]) && OnlyOurs(parts + [leaf, name])
      modifies this
      ensures Valid() && TheirsGrow() && Spent(ours.dirs)
      ensures landed.Some? ==> written && moved && landed.value in {parts + [leaf], parts + [leaf, name]}
      ensures landed.None? && written && moved ==>
        (parts + [leaf] in dirs || exists k | 0 < k <= |parts| :: refuses(parts[..k]) || parts[..k] in files)
      ensures Quiet() ==> (landed.Some? <==>
        && written && moved && parts + [leaf] !in old(dirs)
        && forall k | 0 < k <= |parts| :: !Hindered(parts[..k], old(dirs), old(files)))
      ensures landed.Some? ==> ours.files + replaced == {landed.value} && landed.value in files
      ensures landed.None? ==> ours.files <= {parts + [name]} && replaced == {}
      ensures landed.Some? || !stuck(parts + [name]) ==> parts + [name] !in files
      ensures Unstuck() && ours.dirs != {} ==>
        SomebodyInside(ours.dirs, theirs.dirs + theirs.files + (if landed.Some? then {landed.value} else {}))
      ensures Unstuck() && Quiet() ==>
        (dirs == old(dirs) && files == old(files) && replaced == {} <==> landed.None?)
      ensures Unstuck() && Quiet() && landed.Some? ==>
        && landed.value == parts + [leaf] && (landed.value in replaced <==> landed.value in old(files))
        && dirs == old(dirs) + Above(parts) && files == old(files) + {landed.value}
    {
      hide Tree, IsEmpty, Added, Accounted, Above, AllAbove, SomebodyInside;
      OursAside();
      landed := TryGet(parts, leaf, name, written, moved);
      WhatStays(parts, leaf, name, landed);
    }

    ghost predicate Unstuck()
      reads this
    {
      forall p :: !stuck(p)
    }

    ghost predicate Quiet()
      reads this
    {
      forall k: nat :: world(k) == Addition({}, {})
    }

    /** What was there is there, and without others nothing else is, apart from ours. */
    lemma OursAside()
      requires Valid()
      ensures was.dirs <= dirs && was.files + theirs.files + ours.files <= files
      ensures Quiet() ==> dirs == was.dirs + ours.dirs && files == was.files + ours.files
      ensures Quiet() ==> theirs == Addition({}, {})
    {
      if Quiet() {
        NothingAdded(world, clock);
      }
    }

    /** What a failed transfer leaves behind, and for whom. */
    lemma LeftForSomebody()
      requires Valid() && Spent(ours.dirs)
      ensures Unstuck() && ours.dirs != {} ==>
        SomebodyInside(ours.dirs, theirs.dirs + theirs.files + ours.files)
    {
      if Unstuck() && ours.dirs != {} {
        var dir, child := StaysForSomebody(was, theirs, ours);
      }
    }

    /** A file moved into place keeps the directories above it. */
    lemma LandedStays(parts: Path, leaf: string, name: string, landed: Path)
      requires Valid() && landed in files && landed in {parts + [leaf], parts + [leaf, name]}
      ensures Above(parts) <= dirs && (landed == parts + [leaf, name] ==> parts + [leaf] in dirs)
    {
      var up := landed[..|landed| - 1];
      if landed == parts + [leaf] {
        assert up == parts;
      } else {
        assert up == parts + [leaf] && up[..|up| - 1] == parts;
      }
      AboveInTree(dirs, files, parts);
    }

    /** The end of a failed get, in terms of what was there. */
    lemma WhatStays(parts: Path, leaf: string, name: string, landed: Option<Path>)
      requires Valid() && Spent(ours.dirs) && AllAbove(ours.dirs, parts)
      requires landed.None? ==> replaced == {} && (Unstuck() ==> ours.files == {})
      requires landed.Some? ==> landed.value in {parts + [leaf], parts + [leaf, name]} && landed.value in files
      requires landed.Some? ==> ours.files + replaced == {landed.value} && parts + [leaf] !in was.dirs
      ensures Unstuck() && ours.dirs != {} ==>
        SomebodyInside(ours.dirs, theirs.dirs + theirs.files + (if landed.Some? then {landed.value} else {}))
      ensures Unstuck() && Quiet() && landed.None? ==> dirs == was.dirs && files == was.files
      ensures Unstuck() && Quiet() && landed.Some? ==>
        && landed.value == parts + [leaf] && (landed.value in replaced <==> landed.value in was.files)
        && dirs == was.dirs + Above(parts) && files == was.files + {landed.value}
    {
      hide Tree, IsEmpty, Added, Inside, Disk.Spent, Disk.Unstuck;
      LeftForSomebody();
      OursAside();
      if landed.Some? {
        LandedStays(parts, leaf, name, landed.value);
        AllAboveIsAbove(ours.dirs, parts);
      }
    }
  }

  lemma AllAboveIsAbove(paths: set<Path>, path: Path)
    requires AllAbove(paths, path)
    ensures paths <= Above(path) && forall longer: Path | |longer| > |path| :: longer !in paths
  {
    forall p | p in paths ensures p in Above(path) {
      assert p == path[..|p|];
    }
  }

  lemma Deeper(leaf: Path, created: seq<Path>)
    requires LeafFirst(created) && LongerThan(leaf, Members(created))
    ensures LeafFirst([leaf] + created) && Members([leaf] + created) == {leaf} + Members(created)
  {
    assert ([leaf] + created)[1..] == created;
  }

  lemma RemovedIsTree(dirs: set<Path>, files: set<Path>, path: Path)
    requires Tree(dirs, files) && path in dirs && path != [] && IsEmpty(path, dirs, files)
    ensures Tree(dirs - {path}, files)
  {
    forall p | p in dirs + files && p != [] ensures p[..|p| - 1] != path {
      assert !Inside(p, path);
    }
  }

  lemma GrownIsTree(dirs: set<Path>, files: set<Path>, path: Path)
    requires Tree(dirs, files) && path !in dirs + files && path != [] && path[..|path| - 1] in dirs
    ensures Tree(dirs + {path}, files)
  {}

  lemma MovedIsTree(dirs: set<Path>, files: set<Path>, staged: Path, landed: Path)
    requires Tree(dirs, files) && staged in files && landed !in dirs
    requires landed != [] && landed[..|landed| - 1] in dirs
    ensures Tree(dirs, files - {staged} + {landed})
  {}

  lemma {:induction false} Deepest(paths: set<Path>) returns (deep: Path)
    requires paths != {}
    ensures deep in paths && forall p | p in paths :: |p| <= |deep|
  {
    deep :| deep in paths;
    if paths != {deep} {
      var other := Deepest(paths - {deep});
      deep := if |other| > |deep| then other else deep;
    }
  }

  /** If a directory of ours stays although removing it did not fail, then somebody else put
      something into one of ours, or our staged file is still there. */
  lemma StaysForSomebody(was: Addition, theirs: Addition, ours: Addition) returns (dir: Path, child: Path)
    requires Tree(was.dirs, was.files) && was.dirs !! ours.dirs && ours.dirs != {}
    requires forall p | p in ours.dirs ::
      !IsEmpty(p, was.dirs + theirs.dirs + ours.dirs, was.files + theirs.files + ours.files)
    ensures dir in ours.dirs && Inside(child, dir)
    ensures child in theirs.dirs + theirs.files + ours.files
  {
    dir := Deepest(ours.dirs);
    child :|
      child in was.dirs + theirs.dirs + ours.dirs + (was.files + theirs.files + ours.files) && Inside(child, dir);
    assert child[..|child| - 1] == dir;
  }
}
