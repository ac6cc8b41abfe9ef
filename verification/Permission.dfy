/** The permission check of a push: the repository name is searched for in the printed list of the
    user's applications. */
module Permission {
  import opened GoStrings

  const COMMA_SPACE: string := ", "

  /** The list as it is stored with the connection. */
  function Printed(apps: seq<string>): (r: string)
  {
    if apps == [] then ""
    else if |apps| == 1 then apps[0]
    else apps[0] + COMMA_SPACE + Printed(apps[1..])
  }

  ghost predicate Contains(s: string, p: string)
  {
    exists i :: OccursAt(s, p, i)
  }

  /** The check the body of a push makes. */
  ghost predicate MayBuild(apps: seq<string>, repo: string)
  {
    Contains(Printed(apps), repo)
  }

  ghost predicate InsideSome(apps: seq<string>, repo: string)
  {
    exists i :: 0 <= i < |apps| && Contains(apps[i], repo)
  }

  lemma OccursInside(a: string, s: string, b: string, p: string, i: int)
    requires OccursAt(s, p, i)
    ensures OccursAt(a + s + b, p, |a| + i)
  {
    assert (a + s + b)[|a| + i..|a| + i + |p|] == s[i..i + |p|];
  }

  lemma OccursWith(s: string, p: string, i: int, at: int)
    requires OccursAt(s, p, i) && i <= at < i + |p|
    ensures s[at] in p
  {
    assert s[i..i + |p|][at - i] == s[at];
  }

  /** An occurrence of a text without comma and space does not reach across the separator. */
  lemma OccursOnOneSide(a: string, b: string, p: string, i: int)
    requires p != "" && ',' !in p && ' ' !in p && OccursAt(a + COMMA_SPACE + b, p, i)
    ensures OccursAt(a, p, i) || OccursAt(b, p, i - |a| - 2)
  {
    var s := a + COMMA_SPACE + b;
    if i + |p| <= |a| {
      assert a[i..i + |p|] == s[i..i + |p|];
    } else if |a| + 2 <= i {
      assert b[i - |a| - 2..i - |a| - 2 + |p|] == s[i..i + |p|];
    } else {
      OccursWith(s, p, i, if i <= |a| then |a| else |a| + 1);
    }
  }

  lemma {:induction false} FoundInside(apps: seq<string>, repo: string)
    requires repo != "" && ',' !in repo && ' ' !in repo && MayBuild(apps, repo)
    ensures InsideSome(apps, repo)
    decreases |apps|
  {
    var i :| OccursAt(Printed(apps), repo, i);
    if |apps| == 1 {
      assert Contains(apps[0], repo);
    } else {
      var rest := apps[1..];
      OccursOnOneSide(apps[0], Printed(rest), repo, i);
      if OccursAt(apps[0], repo, i) {
        assert Contains(apps[0], repo);
      } else {
        assert MayBuild(rest, repo);
        FoundInside(rest, repo);
        var j :| 0 <= j < |rest| && Contains(rest[j], repo);
        assert Contains(apps[j + 1], repo);
      }
    }
  }

  lemma {:induction false} InsideIsFound(apps: seq<string>, repo: string, j: nat)
    requires j < |apps| && Contains(apps[j], repo)
    ensures MayBuild(apps, repo)
    decreases |apps|
  {
    if j == 0 {
      var i :| OccursAt(apps[0], repo, i);
      var after := if |apps| == 1 then "" else COMMA_SPACE + Printed(apps[1..]);
      OccursInside("", apps[0], after, repo, i);
      assert "" + apps[0] + after == Printed(apps);
    } else {
      InsideIsFound(apps[1..], repo, j - 1);
      var i :| OccursAt(Printed(apps[1..]), repo, i);
      var before := apps[0] + COMMA_SPACE;
      OccursInside(before, Printed(apps[1..]), "", repo, i);
      assert before + Printed(apps[1..]) + "" == Printed(apps);
    }
  }

  lemma ContainsItself(s: string)
    ensures Contains(s, s) && Contains(s, "")
  {
    assert OccursAt(s, s, 0) && OccursAt(s, "", 0);
  }

  /** The check lets every listed application through, and the empty name always. Any other name
      without comma and space passes exactly when it is a part of some listed name. */
  lemma MayBuildIff(apps: seq<string>, repo: string)
    ensures repo in apps || repo == "" ==> MayBuild(apps, repo)
    ensures repo != "" && ',' !in repo && ' ' !in repo ==> (MayBuild(apps, repo) <==> InsideSome(apps, repo))
  {
    ContainsItself(repo);
    ContainsItself(Printed(apps));
    if repo in apps {
      var j :| 0 <= j < |apps| && apps[j] == repo;
      InsideIsFound(apps, repo, j);
    }
    if InsideSome(apps, repo) {
      var j :| 0 <= j < |apps| && Contains(apps[j], repo);
      InsideIsFound(apps, repo, j);
    }
    if repo != "" && ',' !in repo && ' ' !in repo && MayBuild(apps, repo) {
      FoundInside(apps, repo);
    }
  }

  /** So the check is not the same as being listed. It agrees with it for a name exactly when the name
      is listed or no listed name has it as a part. */
  lemma AgreesWithListIff(apps: seq<string>, repo: string)
    requires repo != "" && ',' !in repo && ' ' !in repo
    ensures (MayBuild(apps, repo) <==> repo in apps)
            <==> (repo in apps || forall i :: 0 <= i < |apps| ==> !Contains(apps[i], repo))
  {
    MayBuildIff(apps, repo);
  }

  /** A part of a listed name passes without being listed. */
  lemma PartOfNamePasses()
    ensures MayBuild(["foobar"], "foo") && "foo" !in ["foobar"]
  {
    assert "foobar"[0..0 + 3] == "foo";
    assert OccursAt("foobar", "foo", 0);
  }

  /** A name with comma and space can reach across two listed names. */
  lemma AcrossTheSeparator(a: string, b: string)
    ensures MayBuild([a, b], a + ", " + b)
  {
    assert [a, b][1..] == [b];
    assert Printed([a, b]) == a + COMMA_SPACE + b;
    ContainsItself(a + ", " + b);
  }
}
