/** The directories of pushes as the server derives them from repository names, and for which names
    concurrent pushes leave each other alone. */
module PushNames {
  import opened Runs
  import opened GoStrings
  import opened PushProtocol
  import opened PushLocking
  import opened PushDirectories
  import PushOutcomes
  import opened RepoNames

  /** Joining a path drops empty components and those that name the directory itself. */
  function Components(parts: seq<string>): (r: seq<string>)
  {
    if parts == [] then []
    else (if parts[0] == "" || parts[0] == "." then [] else [parts[0]]) + Components(parts[1..])
  }

  /** The components below the git home of the directory for a lock key. */
  function PathOf(name: string): (r: Path)
  {
    Components(Split(RepoDir(name), '/'))
  }

  /** Going up with `..` is not modelled. */
  predicate StaysBelow(name: string)
  {
    ".." !in Split(RepoDir(name), '/')
  }

  function PushesOf(names: seq<string>): (r: seq<Push>)
    ensures |r| == |names| && forall i :: 0 <= i < |names| ==> r[i] == Push(names[i], PathOf(names[i]))
  {
    seq(|names|, i requires 0 <= i < |names| => Push(names[i], PathOf(names[i])))
  }

  // ---------------------------------------------------------------- every name has a directory

  lemma {:induction false} ComponentKept(parts: seq<string>, i: nat)
    requires i < |parts| && parts[i] != "" && parts[i] != "."
    ensures parts[i] in Components(parts)
  {
    if i == 0 {
    } else {
      ComponentKept(parts[1..], i - 1);
    }
  }

  lemma {:induction false} SplitLast(s: string, t: string, sep: char)
    requires sep !in t
    ensures var r := Split(s + t, sep); |r[|r| - 1]| >= |t|
  {
    if s == [] {
      assert s + t == t;
      SplitOne(t, sep);
    } else {
      assert (s + t)[1..] == s[1..] + t;
      SplitLast(s[1..], t, sep);
    }
  }

  lemma PathNotEmpty(name: string)
    ensures PathOf(name) != []
  {
    var parts := Split(RepoDir(name), '/');
    SplitLast(name, DOT_GIT, '/');
    ComponentKept(parts, |parts| - 1);
  }

  lemma PushesAreConsistent(names: seq<string>)
    ensures Consistent(PushesOf(names))
  {
    forall c | 0 <= c < |names| ensures PushesOf(names)[c].path != [] {
      PathNotEmpty(names[c]);
    }
  }

  // ---------------------------------------------------------------- exactly which names

  /** Every name leads to a directory directly below the git home, and different names to different
      ones. */
  ghost predicate SeparateNames(names: seq<string>)
  {
    && (forall c :: 0 <= c < |names| ==> |PathOf(names[c])| == 1)
    && (forall c, d :: 0 <= c < |names| && 0 <= d < |names| && PathOf(names[c]) == PathOf(names[d]) ==> names[c] == names[d])
  }

  /** Moreover no name is pushed twice. */
  ghost predicate AloneNames(names: seq<string>)
  {
    && (forall c :: 0 <= c < |names| ==> |PathOf(names[c])| == 1)
    && (forall c, d :: 0 <= c < |names| && 0 <= d < |names| && c != d ==> PathOf(names[c]) != PathOf(names[d]))
  }

  lemma SeparateMeans(names: seq<string>)
    ensures Separate(PushesOf(names)) <==> SeparateNames(names)
    ensures Alone(PushesOf(names)) <==> AloneNames(names)
  {
    var pushes := PushesOf(names);
    assert forall i :: 0 <= i < |names| ==> pushes[i] == Push(names[i], PathOf(names[i]));
  }

  /** Concurrent pushes of any names, repeated or not: in all runs every receive works in a directory of
      its own, freshly made, and nothing is left, exactly when the names are separate; and if locks may
      time out, exactly when moreover no two of them share a directory. */
  lemma NamesTidyIffSeparate(names: seq<string>)
    requires forall i :: 0 <= i < |names| ==> StaysBelow(names[i])
    ensures AlwaysTidy(PushesOf(names), false) <==> SeparateNames(names)
    ensures AlwaysTidy(PushesOf(names), true) <==> AloneNames(names)
  {
    var pushes := PushesOf(names);
    PushesAreConsistent(names);
    TidyExactlyWhenSeparate(pushes);
    TidyDespiteTimeoutsExactlyWhenAlone(pushes);
    SeparateMeans(names);
  }

  lemma SlashFreePath(name: string)
    requires '/' !in name
    ensures PathOf(name) == [RepoDir(name)] && StaysBelow(name)
  {
    SplitOne(RepoDir(name), '/');
    assert |RepoDir(name)| >= 4;
    assert Components([RepoDir(name)]) == [RepoDir(name)] + Components([RepoDir(name)][1..]);
  }

  /** Names without slashes are separate, whatever they are. */
  lemma SlashFreePushesAreTidy(names: seq<string>)
    ensures (forall i :: 0 <= i < |names| ==> '/' !in names[i]) ==> AlwaysTidy(PushesOf(names), false)
  {
    if forall i :: 0 <= i < |names| ==> '/' !in names[i] {
      forall i | 0 <= i < |names| ensures PathOf(names[i]) == [RepoDir(names[i])] && StaysBelow(names[i]) {
        SlashFreePath(names[i]);
      }
      forall c, d | 0 <= c < |names| && 0 <= d < |names| && PathOf(names[c]) == PathOf(names[d])
        ensures names[c] == names[d]
      {
        AppOfRepoDir(names[c]);
        AppOfRepoDir(names[d]);
        assert PathOf(names[c])[0] == PathOf(names[d])[0];
      }
      NamesTidyIffSeparate(names);
    }
  }

  // ---------------------------------------------------------------- what joining drops

  lemma {:induction false} ComponentsConcat(a: seq<string>, b: seq<string>)
    ensures Components(a + b) == Components(a) + Components(b)
  {
    if a == [] {
      assert a + b == b;
    } else {
      assert (a + b)[1..] == a[1..] + b;
      ComponentsConcat(a[1..], b);
    }
  }

  lemma ComponentsThrough(a: string, mid: string, rest: string)
    requires '/' !in mid
    ensures Components(Split(a + ['/'] + (mid + ['/'] + rest), '/'))
            == Components(Split(a, '/')) + Components([mid]) + Components(Split(rest, '/'))
  {
    SplitConcat(a, '/', mid + ['/'] + rest);
    SplitFirst(mid, '/', rest);
    ComponentsConcat(Split(a, '/'), [mid] + Split(rest, '/'));
    ComponentsConcat([mid], Split(rest, '/'));
    var x, y, z := Components(Split(a, '/')), Components([mid]), Components(Split(rest, '/'));
    assert x + (y + z) == x + y + z;
  }

  lemma OneComponent(mid: string)
    ensures Components([mid]) == if mid == "" || mid == "." then [] else [mid]
  {
    assert [mid][1..] == [];
  }

  /** Empty components and single dots do not matter, wherever they are in a name; every other
      component counts. */
  lemma JoinDropsIdleComponents(a: string, mid: string, b: string)
    requires '/' !in mid
    ensures PathOf(a + ['/'] + (mid + ['/'] + b))
            == Components(Split(a, '/')) + (if mid == "" || mid == "." then [] else [mid]) + PathOf(b)
  {
    assert RepoDir(a + ['/'] + (mid + ['/'] + b)) == a + ['/'] + (mid + ['/'] + RepoDir(b));
    ComponentsThrough(a, mid, RepoDir(b));
    OneComponent(mid);
  }

  // ---------------------------------------------------------------- names that fail

  lemma LeadingSlash(name: string)
    ensures PathOf("/" + name) == PathOf(name)
  {
    var dir := RepoDir(name);
    assert RepoDir("/" + name) == "" + ['/'] + dir;
    SplitFirst("", '/', dir);
    var parts := Split(dir, '/');
    assert ([""] + parts)[1..] == parts;
    assert [] + Components(parts) == Components(parts);
  }

  lemma StemOfDoubleSlash(n: string)
    requires !HasSuffix(n, DOT_GIT)
    ensures Stem("/" + ("/" + n)) == "/" + n
  {
    SlashBefore(n, DOT_GIT);
    SlashBefore("/" + n, DOT_GIT);
    TrimSlash("/" + n);
  }

  lemma CleanDoubleSlash(n: string)
    requires PlainName(n)
    ensures CleanRepoName("//" + n) == Ok("/" + n)
  {
    assert "//" + n == "/" + ("/" + n);
    SlashKeepsPlain(n);
    SlashKeepsPlain("/" + n);
    StemOfDoubleSlash(n);
  }

  lemma DoubleSlashKey(op: string, n: string)
    requires GitOperation(op) && PlainName(n)
    ensures LockKey(op, n) == Ok(n) && LockKey(op, "//" + n) == Ok("/" + n)
  {
    SpellingKey(op, n, n);
    OperationChars(op);
    LockKeyIs(op, "//" + n);
    CleanExecChars("//" + n);
    CleanDoubleSlash(n);
  }

  /** For every plain name n, a client that asks for `//n` gets the lock key `/n`, which is not the
      lock key of n; but both are served in the same directory, and a run without timeouts leads to a state in which
      the second finds the first there. */
  lemma DoubleSlashCollides(op: string, n: string) returns (t: State)
    requires GitOperation(op) && PlainName(n)
    ensures LockKey(op, n) == Ok(n) && LockKey(op, "//" + n) == Ok("/" + n)
    ensures PathOf(n) == PathOf("/" + n)
    ensures Leads(Start(PushesOf([n, "/" + n])), t, false) && FindsInUse(t, 0, 1)
    ensures !AlwaysTidy(PushesOf([n, "/" + n]), false)
  {
    DoubleSlashKey(op, n);
    LeadingSlash(n);
    PathNotEmpty(n);
    var names := [n, "/" + n];
    assert names[0] != names[1] by {
      assert |names[1]| == |names[0]| + 1;
    }
    t := SharedIsNotFresh(PushesOf(names), 0, 1, false);
  }

  /** For every plain name `a/b` the directory `a` that is made on the way stays behind. */
  lemma NestedNameLeavesParent(op: string, a: string, b: string) returns (t: State)
    requires GitOperation(op) && PlainName(a + "/" + b) && '/' !in a && a != "."
    ensures LockKey(op, a + "/" + b) == Ok(a + "/" + b)
    ensures Leads(Start(PushesOf([a + "/" + b])), t, false) && [a] in t.dirs
    ensures forall d :: 0 <= d < |t.calls| ==> !InFlight(t.calls[d])
    ensures !AlwaysTidy(PushesOf([a + "/" + b]), false)
  {
    var name := a + "/" + b;
    SpellingKey(op, name, name);
    assert RepoDir(name) == a + ['/'] + RepoDir(b);
    SplitFirst(a, '/', RepoDir(b));
    var parts := Split(RepoDir(b), '/');
    assert ([a] + parts)[1..] == parts;
    assert name[0] == if a == "" then '/' else a[0];
    PathNotEmpty(b);
    assert PathOf(name) == [a] + PathOf(b);
    t := NestedLeavesParents(PushesOf([name]), 0, false);
    assert PathOf(name)[..1] == [a];
  }

  lemma InnerPath(a: string, b: string)
    requires '/' !in a
    ensures PathOf(a) == [RepoDir(a)] && PathOf(RepoDir(a) + ['/'] + b) == [RepoDir(a)] + PathOf(b) && PathOf(b) != []
  {
    var dir := RepoDir(a);
    SlashFreePath(a);
    assert RepoDir(dir + ['/'] + b) == dir + ['/'] + RepoDir(b);
    SplitFirst(dir, '/', RepoDir(b));
    ComponentsConcat([dir], Split(RepoDir(b), '/'));
    assert |dir| >= 4;
    OneComponent(dir);
    PathNotEmpty(b);
  }

  /** For every plain name `a` without slashes, the directory of a name `a.git/b` lies inside that of `a`:
      a push of `a` that ends well removes it, also while the other push is serving there. */
  lemma InnerNameLosesDirectory(op: string, a: string, b: string) returns (t: State)
    requires GitOperation(op) && PlainName(a) && '/' !in a && PlainName(RepoDir(a) + ['/'] + b)
    ensures LockKey(op, a) == Ok(a) && LockKey(op, RepoDir(a) + ['/'] + b) == Ok(RepoDir(a) + ['/'] + b)
    ensures Leads(Start(PushesOf([a, RepoDir(a) + ['/'] + b])), t, false) && |t.calls| == 2
    ensures t.calls[0].caller == Returned(Body(Nil))
    ensures t.calls[1].worker == AtServe(true) && PathOf(RepoDir(a) + ['/'] + b) !in t.dirs
  {
    var name := RepoDir(a) + ['/'] + b;
    SpellingKey(op, a, a);
    SpellingKey(op, name, name);
    InnerPath(a, b);
    assert |name| > |a|;
    t := PushOutcomes.LosesDirectory(PushesOf([a, name]), 0, 1);
  }

  /** Two requests the server accepts, and for which the directories are not kept apart. */
  lemma NamesThatFail()
    ensures LockKey("git-receive-pack", "a/b") == Ok("a/b") && !AlwaysTidy(PushesOf(["a/b"]), false)
    ensures LockKey("git-receive-pack", "x") == Ok("x") && LockKey("git-receive-pack", "//x") == Ok("/x")
    ensures !AlwaysTidy(PushesOf(["x", "/x"]), false)
  {
    assert "a" + "/" + "b" == "a/b" && "//" + "x" == "//x" && "/" + "x" == "/x";
    var _ := NestedNameLeavesParent("git-receive-pack", "a", "b");
    var _ := DoubleSlashCollides("git-receive-pack", "x");
  }
}
