/** The cleaner: one pass removes the directories and storage objects of applications that have no
    namespace any more. */
module Cleaner {
  import opened Runs
  import opened GoStrings
  import opened RepoNames
  import opened BuildKeys

  datatype Entry = Entry(name: string, isDir: bool)

  /** What goes wrong during a pass: reading the git home, removing some paths, listing the storage for
      some applications, deleting some objects. */
  datatype Faults = Faults(readDir: bool, remove: set<string>, listing: set<string>, delete: set<string>)

  // ---------------------------------------------------------------- lists

  /** The names of the directories that pass the filter, in order. */
  function DirNames(entries: seq<Entry>, filter: string -> bool): (r: seq<string>)
  {
    if entries == [] then []
    else
      var e := entries[|entries| - 1];
      DirNames(entries[..|entries| - 1], filter) +
      if e.name != "" && e.name != "." && e.isDir && filter(e.name) then [e.name] else []
  }

  method LocalDirs(entries: seq<Entry>, filter: string -> bool) returns (ret: seq<string>)
    ensures ret == DirNames(entries, filter)
  {
    ret := [];
    for i := 0 to |entries|
      invariant ret == DirNames(entries[..i], filter)
    {
      assert entries[..i + 1][..i] == entries[..i];
      var nm := entries[i].name;
      if |nm| <= 0 || nm == "." || !entries[i].isDir {
        continue;
      }
      if filter(nm) {
        ret := ret + [nm];
      }
    }
    assert entries[..|entries|] == entries;
  }

  lemma {:induction false} DirNamesMembers(entries: seq<Entry>, filter: string -> bool, nm: string)
    ensures nm in DirNames(entries, filter) <==> Entry(nm, true) in entries && nm != "" && nm != "." && filter(nm)
  {
    if entries == [] {
    } else {
      DirNamesMembers(entries[..|entries| - 1], filter, nm);
      assert entries == entries[..|entries| - 1] + [entries[|entries| - 1]];
    }
  }

  /** Each directory is listed once for every entry, in the order of the entries. */
  lemma {:induction false} DirNamesConcat(a: seq<Entry>, b: seq<Entry>, filter: string -> bool)
    ensures DirNames(a + b, filter) == DirNames(a, filter) + DirNames(b, filter)
    ensures |b| == 1 ==> |DirNames(b, filter)| <= 1
  {
    if b == [] {
      assert a + b == a;
    } else {
      assert (a + b)[..|a + b| - 1] == a + b[..|b| - 1];
      DirNamesConcat(a, b[..|b| - 1], filter);
    }
  }

  method StripSuffixes(strs: seq<string>, suffix: string) returns (ret: seq<string>)
    ensures |ret| == |strs| && forall i :: 0 <= i < |strs| ==> ret[i] == BeforeLast(strs[i], suffix)
  {
    var a := new string[|strs|];
    for i := 0 to |strs|
      invariant forall j :: 0 <= j < i ==> a[j] == BeforeLast(strs[j], suffix)
    {
      var idx := LastIndex(strs[i], suffix);
      if idx >= 0 {
        a[i] := strs[i][..idx];
      } else {
        a[i] := strs[i];
      }
    }
    ret := a[..];
  }

  ghost predicate Live(namespaces: seq<string>, lowerName: string)
  {
    exists i :: 0 <= i < |namespaces| && ToLower(namespaces[i]) == lowerName
  }

  /** The lower-cased names without a namespace, in order. */
  ghost function Unmatched(namespaces: seq<string>, names: seq<string>): (r: seq<string>)
  {
    if names == [] then []
    else
      var lower := ToLower(names[|names| - 1]);
      Unmatched(namespaces, names[..|names| - 1]) + if Live(namespaces, lower) then [] else [lower]
  }

  method GetDiff(namespaces: seq<string>, dirs: seq<string>) returns (ret: seq<string>)
    ensures ret == Unmatched(namespaces, dirs)
  {
    var namespacesSet: set<string> := {};
    for i := 0 to |namespaces|
      invariant forall n :: n in namespacesSet <==> exists j :: 0 <= j < i && ToLower(namespaces[j]) == n
    {
      namespacesSet := namespacesSet + {ToLower(namespaces[i])};
    }
    assert forall n :: n in namespacesSet <==> Live(namespaces, n);
    ret := [];
    for i := 0 to |dirs|
      invariant ret == Unmatched(namespaces, dirs[..i])
    {
      assert dirs[..i + 1][..i] == dirs[..i];
      var lowerName := ToLower(dirs[i]);
      if lowerName !in namespacesSet {
        ret := ret + [lowerName];
      }
    }
    assert dirs[..|dirs|] == dirs;
  }

  lemma {:induction false} UnmatchedMembers(namespaces: seq<string>, names: seq<string>, x: string)
    ensures x in Unmatched(namespaces, names) <==>
              !Live(namespaces, x) && exists i :: 0 <= i < |names| && ToLower(names[i]) == x
  {
    if names == [] {
    } else {
      var front := names[..|names| - 1];
      UnmatchedMembers(namespaces, front, x);
      assert forall i :: 0 <= i < |front| ==> front[i] == names[i];
    }
  }

  lemma {:induction false} UnmatchedConcat(namespaces: seq<string>, a: seq<string>, b: seq<string>)
    ensures Unmatched(namespaces, a + b) == Unmatched(namespaces, a) + Unmatched(namespaces, b)
    ensures |b| == 1 ==> |Unmatched(namespaces, b)| <= 1
  {
    if b == [] {
      assert a + b == a;
    } else {
      assert (a + b)[..|a + b| - 1] == a + b[..|b| - 1];
      UnmatchedConcat(namespaces, a, b[..|b| - 1]);
    }
  }

  // ---------------------------------------------------------------- one pass

  predicate HasGitSuffix(dir: string)
  {
    HasSuffix(dir, DOT_GIT)
  }

  /** The applications a pass deletes. */
  ghost predicate ToDelete(namespaces: seq<string>, entries: seq<Entry>, app: string)
  {
    !Live(namespaces, app)
    && exists e :: e in entries && e.isDir && HasGitSuffix(e.name) && ToLower(StripGit(e.name)) == app
  }

  lemma AppsAreToDelete(namespaces: seq<string>, entries: seq<Entry>, dirs: seq<string>, stripped: seq<string>, app: string)
    requires dirs == DirNames(entries, HasGitSuffix) && |stripped| == |dirs|
    requires forall i :: 0 <= i < |dirs| ==> stripped[i] == StripGit(dirs[i])
    ensures app in Unmatched(namespaces, stripped) <==> ToDelete(namespaces, entries, app)
  {
    UnmatchedMembers(namespaces, stripped, app);
    if ToDelete(namespaces, entries, app) {
      var e :| e in entries && e.isDir && HasGitSuffix(e.name) && ToLower(StripGit(e.name)) == app;
      DirNamesMembers(entries, HasGitSuffix, e.name);
      var i :| 0 <= i < |dirs| && dirs[i] == e.name;
      assert ToLower(stripped[i]) == app;
    }
    if app in Unmatched(namespaces, stripped) {
      var i :| 0 <= i < |stripped| && ToLower(stripped[i]) == app;
      DirNamesMembers(entries, HasGitSuffix, dirs[i]);
      assert Entry(dirs[i], true) in entries;
    }
  }

  /** The applications to delete, from the names of the git directories. */
  method FindApps(namespaces: seq<string>, ghost entries: seq<Entry>, gitDirs: seq<string>) returns (apps: seq<string>)
    requires gitDirs == DirNames(entries, HasGitSuffix)
    ensures forall a :: a in apps <==> ToDelete(namespaces, entries, a)
  {
    var stripped := StripSuffixes(gitDirs, DOT_GIT);
    apps := GetDiff(namespaces, stripped);
    forall a ensures a in apps <==> ToDelete(namespaces, entries, a) {
      AppsAreToDelete(namespaces, entries, gitDirs, stripped, a);
    }
  }

  function Remaining(entries: seq<Entry>, gone: set<string>): (r: seq<Entry>)
    ensures forall e :: e in r <==> e in entries && e.name !in gone
  {
    if entries == [] then []
    else
      assert entries == [entries[0]] + entries[1..];
      (if entries[0].name in gone then [] else [entries[0]]) + Remaining(entries[1..], gone)
  }

  lemma {:induction false} RemainingTwice(entries: seq<Entry>, gone: set<string>, more: set<string>)
    ensures Remaining(Remaining(entries, gone), more) == Remaining(entries, gone + more)
  {
    if entries == [] {
    } else {
      RemainingTwice(entries[1..], gone, more);
      var rest := Remaining(entries[1..], gone);
      if entries[0].name !in gone {
        assert ([entries[0]] + rest)[1..] == rest;
      } else {
        assert [] + rest == rest;
      }
    }
  }

  lemma {:induction false} RemainingNone(entries: seq<Entry>)
    ensures Remaining(entries, {}) == entries
  {
    if entries == [] {
    } else {
      RemainingNone(entries[1..]);
    }
  }

  /** The paths that deleting the given applications removes. */
  ghost function Paths(apps: seq<string>, faults: Faults): (r: set<string>)
  {
    (set i | 0 <= i < |apps| :: apps[i] + DOT_GIT) - faults.remove
  }

  /** Deleting storage objects for `app` fails. */
  predicate StorageFails(app: string, engine: Engine, faults: Faults, objects: set<string>)
  {
    || app in faults.listing
    || engine(Pattern(app)).None?
    || exists o :: o in objects && Accepts(engine, app, o) && o in faults.delete
  }

  /** What deleting the objects of `apps` leaves of `before`: only accepted objects go, and all of them
      for every application whose deletion does not fail. */
  ghost predicate Swept(before: set<string>, after: set<string>, apps: seq<string>, engine: Engine, faults: Faults)
  {
    && after <= before
    && (forall o :: o in before && o !in after ==> exists i :: 0 <= i < |apps| && Accepts(engine, apps[i], o))
    && (forall i, o :: 0 <= i < |apps| && !StorageFails(apps[i], engine, faults, before) && o in after
          ==> !Accepts(engine, apps[i], o))
  }

  lemma SweptStep(before: set<string>, mid: set<string>, after: set<string>, apps: seq<string>,
                  engine: Engine, faults: Faults)
    requires apps != [] && Swept(before, mid, apps[..|apps| - 1], engine, faults) && after <= mid
    requires var a := apps[|apps| - 1];
             && (forall o :: o in mid && !Accepts(engine, a, o) ==> o in after)
             && (!StorageFails(a, engine, faults, mid) ==> forall o :: o in after ==> !Accepts(engine, a, o))
    ensures Swept(before, after, apps, engine, faults)
  {
  }

  lemma PathsStep(apps: seq<string>, i: nat, faults: Faults)
    requires i < |apps|
    ensures Paths(apps[..i + 1], faults) == Paths(apps[..i], faults) + ({apps[i] + DOT_GIT} - faults.remove)
  {
  }

  class Host {
    var entries: seq<Entry>     // the git home
    var objects: set<string>    // the keys listed under home in the storage

    constructor (entries: seq<Entry>, objects: set<string>)
      ensures this.entries == entries && this.objects == objects
    {
      this.entries, this.objects := entries, objects;
    }

    /** Removes a path below the git home. */
    method RemoveAll(path: string, faults: Faults) returns (ok: bool)
      modifies this`entries
      ensures ok <==> path !in faults.remove
      ensures entries == Remaining(old(entries), {path} - faults.remove)
    {
      if path in faults.remove {
        RemainingNone(entries);
        assert {path} - faults.remove == {};
        return false;
      }
      entries := Remaining(entries, {path});
      assert {path} - faults.remove == {path};
      return true;
    }

    /** Deletes the objects that the application's pattern accepts, in the unspecified order of the
        listing, up to the first failure. */
    method DeleteFromStorage(app: string, engine: Engine, faults: Faults) returns (ok: bool)
      modifies this`objects
      ensures ok <==> !StorageFails(app, engine, faults, old(objects))
      ensures app in faults.listing || engine(Pattern(app)).None? ==> !ok && objects == old(objects)
      ensures ok ==> forall o :: o in old(objects) && Accepts(engine, app, o) ==> o !in faults.delete
      ensures objects <= old(objects)
      ensures forall o :: o in old(objects) && !Accepts(engine, app, o) ==> o in objects
      ensures ok ==> forall o :: o in objects ==> !Accepts(engine, app, o)
    {
      if app in faults.listing {
        return false;
      }
      if engine(Pattern(app)).None? {
        return false;
      }
      var gitRegex := engine(Pattern(app)).value;
      var listed := objects;
      while listed != {}
        invariant listed <= objects <= old(objects)
        invariant forall o :: o in old(objects) && !gitRegex(o) ==> o in objects
        invariant forall o :: o in objects && o !in listed ==> !gitRegex(o)
        invariant forall o :: o in old(objects) && o in faults.delete && gitRegex(o) ==> o in listed
        decreases listed
      {
        var obj :| obj in listed;
        listed := listed - {obj};
        if gitRegex(obj) {
          if obj in faults.delete {
            return false;
          }
          objects := objects - {obj};
        }
      }
      return true;
    }

    /** A failing application does not keep the others from being deleted. */
    method DeleteApps(apps: seq<string>, engine: Engine, faults: Faults)
      modifies this
      ensures entries == Remaining(old(entries), Paths(apps, faults))
      ensures Swept(old(objects), objects, apps, engine, faults)
    {
      RemainingNone(entries);
      assert Paths(apps[..0], faults) == {};
      for i := 0 to |apps|
        invariant entries == Remaining(old(entries), Paths(apps[..i], faults))
        invariant Swept(old(objects), objects, apps[..i], engine, faults)
      {
        var dirToDelete := apps[i] + DOT_GIT;
        var removed := RemoveAll(dirToDelete, faults);
        RemainingTwice(old(entries), Paths(apps[..i], faults), {dirToDelete} - faults.remove);
        PathsStep(apps, i, faults);
        ghost var mid := objects;
        var deleted := DeleteFromStorage(apps[i], engine, faults);
        assert apps[..i + 1][..i] == apps[..i];
        SweptStep(old(objects), mid, objects, apps[..i + 1], engine, faults);
      }
      assert apps[..|apps|] == apps;
    }

    /** One iteration of the cleaner's loop, after the namespaces were listed. */
    method Pass(namespaces: seq<string>, engine: Engine, faults: Faults) returns (apps: seq<string>)
      modifies this
      ensures faults.readDir ==> apps == [] && entries == old(entries) && objects == old(objects)
      ensures !faults.readDir ==> forall a :: a in apps <==> ToDelete(namespaces, old(entries), a)
      ensures entries == Remaining(old(entries), Paths(apps, faults))
      ensures Swept(old(objects), objects, apps, engine, faults)
    {
      apps := [];
      if faults.readDir {
        RemainingNone(entries);
        assert Paths(apps, faults) == {};
        return;
      }
      var gitDirs := LocalDirs(entries, HasGitSuffix);
      apps := FindApps(namespaces, entries, gitDirs);
      DeleteApps(apps, engine, faults);
    }
  }

  // ---------------------------------------------------------------- what a pass achieves

  predicate IsLower(s: string)
  {
    ToLower(s) == s
  }

  /** A directory of an application that has no namespace. */
  ghost predicate Orphan(namespaces: seq<string>, e: Entry)
  {
    e.isDir && HasGitSuffix(e.name) && !Live(namespaces, ToLower(StripGit(e.name)))
  }

  lemma LowerOfDir(app: string)
    ensures ToLower(app + DOT_GIT) == ToLower(app) + DOT_GIT && ToLower(ToLower(app)) == ToLower(app)
  {
  }

  lemma GitDirSplits(dir: string)
    requires HasGitSuffix(dir)
    ensures dir == StripGit(dir) + DOT_GIT
  {
  }

  /** The paths a pass may remove are the directory names of applications without a namespace. */
  lemma OnlyOrphanPaths(namespaces: seq<string>, entries: seq<Entry>, apps: seq<string>, faults: Faults, dir: string)
    requires forall a :: a in apps <==> ToDelete(namespaces, entries, a)
    requires dir in Paths(apps, faults)
    ensures HasGitSuffix(dir) && IsLower(dir) && !Live(namespaces, ToLower(StripGit(dir))) && dir !in faults.remove
  {
    var i :| 0 <= i < |apps| && dir == apps[i] + DOT_GIT;
    assert ToDelete(namespaces, entries, apps[i]);
    var e :| e in entries && e.isDir && HasGitSuffix(e.name) && ToLower(StripGit(e.name)) == apps[i];
    LowerOfDir(StripGit(e.name));
    LowerOfDir(apps[i]);
    AppOfRepoDir(apps[i]);
  }

  /** A pass removes a directory exactly when it belongs to no live namespace, its name is in lower
      case, and its own removal does not fail; other applications' failures do not matter. */
  lemma RemovedIffOrphan(namespaces: seq<string>, entries: seq<Entry>, apps: seq<string>, faults: Faults, e: Entry)
    requires forall a :: a in apps <==> ToDelete(namespaces, entries, a)
    requires e in entries && e.isDir
    ensures e !in Remaining(entries, Paths(apps, faults)) <==>
              Orphan(namespaces, e) && IsLower(e.name) && e.name !in faults.remove
  {
    if e.name in Paths(apps, faults) {
      OnlyOrphanPaths(namespaces, entries, apps, faults, e.name);
    }
    if Orphan(namespaces, e) && IsLower(e.name) && e.name !in faults.remove {
      var app := ToLower(StripGit(e.name));
      assert ToDelete(namespaces, entries, app);
      GitDirSplits(e.name);
      LowerOfDir(StripGit(e.name));
      var i :| 0 <= i < |apps| && apps[i] == app;
      assert apps[i] + DOT_GIT == e.name;
    }
  }

  /** The same letter, possibly a capital on the left. */
  predicate SameLetter(a: char, b: char)
  {
    a == b || exists i :: 0 <= i < 26 && a == "ABCDEFGHIJKLMNOPQRSTUVWXYZ"[i] && b == "abcdefghijklmnopqrstuvwxyz"[i]
  }

  /** A namespace belongs to an application if the two differ in capitals at most. */
  predicate SameName(namespace: string, app: string)
  {
    |namespace| == |app| && forall i :: 0 <= i < |app| ==> SameLetter(namespace[i], app[i])
  }

  predicate LowerName(app: string)
  {
    forall i :: 0 <= i < |app| ==> app[i] in "abcdefghijklmnopqrstuvwxyz0123456789-"
  }

  lemma LowerNameChar(c: char)
    requires c in "abcdefghijklmnopqrstuvwxyz0123456789-"
    ensures LowerChar(c) == c
  {
  }

  lemma LowerIsSame(a: char, b: char)
    requires LowerChar(b) == b
    ensures LowerChar(a) == b <==> SameLetter(a, b)
  {
    if LowerChar(a) == b && a != b {
      var i := a as int - 65;
      assert "ABCDEFGHIJKLMNOPQRSTUVWXYZ"[i] == a;
      LowerLetters(i);
    }
    if i :| 0 <= i < 26 && a == "ABCDEFGHIJKLMNOPQRSTUVWXYZ"[i] && b == "abcdefghijklmnopqrstuvwxyz"[i] {
      LowerLetters(i);
    }
  }

  lemma NamespaceOf(namespace: string, app: string)
    requires LowerName(app)
    ensures ToLower(namespace) == app <==> SameName(namespace, app)
  {
    if |namespace| == |app| {
      forall i | 0 <= i < |app| ensures ToLower(namespace)[i] == app[i] <==> SameLetter(namespace[i], app[i]) {
        LowerNameChar(app[i]);
        LowerIsSame(namespace[i], app[i]);
      }
    }
  }

  lemma LowerNameStays(app: string)
    requires LowerName(app)
    ensures ToLower(app) == app && IsLower(app + ".git")
  {
    forall i | 0 <= i < |app| ensures ToLower(app)[i] == app[i] {
      LowerNameChar(app[i]);
    }
    LowerOfDir(app);
  }

  /** In the names a user sees: the directory `<app>.git` of an application with an ordinary name goes
      exactly if no namespace has that name, capitals apart, and its own removal does not fail. */
  lemma DirectoryGoesIffNoNamespace(
      namespaces: seq<string>, entries: seq<Entry>, apps: seq<string>, faults: Faults, app: string)
    requires forall a :: a in apps <==> ToDelete(namespaces, entries, a)
    requires LowerName(app) && Entry(app + ".git", true) in entries
    ensures Entry(app + ".git", true) !in Remaining(entries, Paths(apps, faults)) <==>
              (forall i :: 0 <= i < |namespaces| ==> !SameName(namespaces[i], app)) && app + ".git" !in faults.remove
  {
    var e := Entry(app + ".git", true);
    RemovedIffOrphan(namespaces, entries, apps, faults, e);
    LowerNameStays(app);
    AppOfRepoDir(app);
    forall i | 0 <= i < |namespaces| ensures ToLower(namespaces[i]) == app <==> SameName(namespaces[i], app) {
      NamespaceOf(namespaces[i], app);
    }
    assert HasGitSuffix(e.name);
  }

  /** No entry whose lower-cased name matches a live namespace is ever removed. */
  lemma LiveAppsSurvive(namespaces: seq<string>, entries: seq<Entry>, apps: seq<string>, faults: Faults, e: Entry)
    requires forall a :: a in apps <==> ToDelete(namespaces, entries, a)
    requires e in entries && Live(namespaces, ToLower(StripGit(e.name)))
    ensures e in Remaining(entries, Paths(apps, faults))
  {
    if e.name in Paths(apps, faults) {
      OnlyOrphanPaths(namespaces, entries, apps, faults, e.name);
    }
  }

  /** With unchanged namespaces a second pass has nothing to delete exactly when every orphan of the
      first was in lower case and could be removed. */
  lemma SecondPassIsIdle(namespaces: seq<string>, entries: seq<Entry>, apps: seq<string>, faults: Faults)
    requires forall a :: a in apps <==> ToDelete(namespaces, entries, a)
    ensures (forall a :: !ToDelete(namespaces, Remaining(entries, Paths(apps, faults)), a))
            <==> forall e :: e in entries && Orphan(namespaces, e) ==> IsLower(e.name) && e.name !in faults.remove
  {
    var left := Remaining(entries, Paths(apps, faults));
    forall e | e in entries && Orphan(namespaces, e) && !(IsLower(e.name) && e.name !in faults.remove)
      ensures ToDelete(namespaces, left, ToLower(StripGit(e.name)))
    {
      RemovedIffOrphan(namespaces, entries, apps, faults, e);
    }
    forall a | ToDelete(namespaces, left, a)
      ensures exists e :: e in entries && Orphan(namespaces, e) && !(IsLower(e.name) && e.name !in faults.remove)
    {
      var e :| e in left && e.isDir && HasGitSuffix(e.name) && ToLower(StripGit(e.name)) == a;
      RemovedIffOrphan(namespaces, entries, apps, faults, e);
      assert Orphan(namespaces, e);
    }
  }

  /** A pass that deletes no name with a dot or another character special to regular expressions
      leaves every object of every live application alone. */
  lemma LiveObjectsSurvive(namespaces: seq<string>, entries: seq<Entry>, apps: seq<string>, engine: Engine, faults: Faults,
                           before: set<string>, after: set<string>, app: string, sha: string)
    requires forall a :: a in apps <==> ToDelete(namespaces, entries, a)
    requires EngineIsSound(engine) && forall a :: a in apps ==> DotOnly(a) && '.' !in a
    requires Swept(before, after, apps, engine, faults)
    requires Live(namespaces, app) && |sha| == 8 && ListedKey(app, sha) in before
    ensures ListedKey(app, sha) in after
  {
    if ListedKey(app, sha) !in after {
      var i :| 0 <= i < |apps| && Accepts(engine, apps[i], ListedKey(app, sha));
      assert apps[i] in apps;
      NoForeignKeysIffNoDot(engine, apps[i]);
    }
  }

  /** No tarball of a deleted application remains, unless deleting its objects failed. */
  lemma DeletedObjectsGo(apps: seq<string>, engine: Engine, faults: Faults, before: set<string>, after: set<string>,
                         app: string, raw: string)
    requires EngineIsSound(engine) && app in apps && DotOnly(app) && IsSha(raw)
    requires Swept(before, after, apps, engine, faults) && !StorageFails(app, engine, faults, before)
    ensures ListedKey(app, ShortSha(raw).value) !in after
  {
    var key := ListedKey(app, ShortSha(raw).value);
    OwnKeysMatch(engine, app, raw);
  }
}
