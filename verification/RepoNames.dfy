/** From the command a git client sends to the name that is locked, and from the repository directory
    back to the application name. */
module RepoNames {
  import Runs
  import opened GoStrings

  const DOT_GIT: string := ".git"

  datatype NameError = EmptyName | DirectoryChange
  datatype NameResult = Ok(name: string) | Failed(error: NameError)

  /** Dollar signs vanish and backticks become quotes. */
  function CleanExec(command: string): (r: string)
  {
    if command == [] then []
    else
      (if command[0] == '$' then [] else if command[0] == '`' then "'" else [command[0]]) + CleanExec(command[1..])
  }

  /** The word before the first space, and what follows that space if there is one. */
  function SplitCommand(clean: string): (r: (string, Runs.Option<string>))
  {
    if clean == [] then ([], Runs.None)
    else if clean[0] == ' ' then ([], Runs.Some(clean[1..]))
    else
      var (word, rest) := SplitCommand(clean[1..]);
      ([clean[0]] + word, rest)
  }

  predicate HasDotDot(s: string)
  {
    exists i :: 0 <= i < |s| - 1 && s[i] == '.' && s[i + 1] == '.'
  }

  function Unquoted(s: string): (r: string)
    ensures '\'' !in s ==> r == s
  {
    if s == [] then []
    else
      if s[0] == '\'' then Unquoted(s[1..]) else [s[0]] + Unquoted(s[1..])
  }

  lemma {:induction false} UnquotedChars(s: string)
    ensures '\'' !in Unquoted(s) && forall c :: c in Unquoted(s) ==> c in s
  {
    if s == [] {
    } else {
      UnquotedChars(s[1..]);
    }
  }

  /** Without one `.git` at the end and one slash at the start. */
  function Stem(s: string): string
  {
    TrimPrefix(TrimSuffix(s, DOT_GIT), "/")
  }

  function CleanRepoName(name: string): (r: NameResult)
  {
    if |name| == 0 then Failed(EmptyName)
    else if HasDotDot(name) then Failed(DirectoryChange)
    else Ok(Stem(Unquoted(name)))
  }

  /** The lock key of an exec command with operation `op` on `spelling`, as the server derives it. */
  function LockKey(op: string, spelling: string): (r: NameResult)
  {
    match SplitCommand(CleanExec(op + " " + spelling)).1
    case None => Failed(EmptyName)
    case Some(arg) => CleanRepoName(arg)
  }

  /** The commands that reach the lock. */
  predicate GitOperation(op: string)
  {
    op == "git-receive-pack" || op == "git-upload-pack"
  }

  // ---------------------------------------------------------------- all spellings of a name

  predicate PlainName(n: string)
  {
    && n != "" && '\'' !in n && '$' !in n && '`' !in n && !HasDotDot(n)
    && n[0] != '/' && n[|n| - 1] != '.' && !HasSuffix(n, DOT_GIT)
  }

  predicate Unadorned(spelling: string, n: string)
  {
    spelling in {n, n + DOT_GIT, "/" + n, "/" + n + DOT_GIT}
  }

  ghost predicate Spells(spelling: string, n: string)
  {
    Unadorned(spelling, n) || exists s :: Unadorned(s, n) && spelling == "'" + s + "'"
  }

  lemma {:induction false} CleanExecConcat(a: string, b: string)
    ensures CleanExec(a + b) == CleanExec(a) + CleanExec(b)
  {
    if a == [] {
      assert a + b == b;
    } else {
      assert (a + b)[1..] == a[1..] + b;
      CleanExecConcat(a[1..], b);
    }
  }

  lemma {:induction false} CleanExecChars(s: string)
    ensures '$' !in CleanExec(s) && '`' !in CleanExec(s)
    ensures '$' !in s && '`' !in s ==> CleanExec(s) == s
  {
    if s == [] {
    } else {
      CleanExecChars(s[1..]);
    }
  }

  lemma {:induction false} SplitCommandAt(word: string, rest: string)
    requires ' ' !in word
    ensures SplitCommand(word + " " + rest) == (word, Runs.Some(rest))
  {
    var s := word + " " + rest;
    if word == [] {
      assert s[1..] == rest;
    } else {
      assert s[1..] == word[1..] + " " + rest;
      SplitCommandAt(word[1..], rest);
      assert [word[0]] + word[1..] == word;
    }
  }

  lemma {:induction false} SplitCommandWhole(word: string)
    requires ' ' !in word
    ensures SplitCommand(word) == (word, Runs.None)
  {
    if word == [] {
    } else {
      SplitCommandWhole(word[1..]);
      assert [word[0]] + word[1..] == word;
    }
  }

  lemma OperationChars(op: string)
    requires GitOperation(op)
    ensures ' ' !in op && '$' !in op && '`' !in op
  {
  }

  lemma LockKeyIs(op: string, spelling: string)
    requires ' ' !in op && '$' !in op && '`' !in op
    ensures LockKey(op, spelling) == CleanRepoName(CleanExec(spelling))
  {
    var c := CleanExec(spelling);
    CleanExecConcat(op + " ", spelling);
    CleanExecChars(op + " ");
    assert CleanExec(op + " " + spelling) == op + " " + c;
    SplitCommandAt(op, c);
  }

  lemma {:induction false} UnquotedConcat(a: string, b: string)
    ensures Unquoted(a + b) == Unquoted(a) + Unquoted(b)
  {
    if a == [] {
      assert a + b == b;
    } else {
      assert (a + b)[1..] == a[1..] + b;
      UnquotedConcat(a[1..], b);
    }
  }

  lemma DotGitKeepsPlain(n: string)
    requires n != "" && !HasDotDot(n) && n[|n| - 1] != '.'
    ensures !HasDotDot(n + DOT_GIT)
  {
  }

  lemma SlashKeepsPlain(s: string)
    requires !HasDotDot(s)
    ensures !HasDotDot("/" + s)
  {
  }

  lemma StemOfDotGit(s: string)
    ensures Stem(s + DOT_GIT) == TrimPrefix(s, "/")
  {
  }

  lemma SlashBefore(n: string, suffix: string)
    requires suffix != "" && suffix[0] != '/' && !HasSuffix(n, suffix)
    ensures !HasSuffix(['/'] + n, suffix)
  {
  }

  lemma TrimSlash(n: string)
    ensures TrimPrefix("/" + n, "/") == n
  {
  }

  lemma StemOfSpelling(s: string, n: string)
    requires n != "" && n[0] != '/' && !HasSuffix(n, DOT_GIT) && Unadorned(s, n)
    ensures Stem(s) == n
  {
    SlashBefore(n, DOT_GIT);
    TrimSlash(n);
    StemOfDotGit(n);
    StemOfDotGit("/" + n);
  }

  lemma UnadornedKey(s: string, n: string)
    requires PlainName(n) && Unadorned(s, n)
    ensures '\'' !in s && '$' !in s && '`' !in s && !HasDotDot(s) && s != ""
    ensures Stem(s) == n
  {
    StemOfSpelling(s, n);
    DotGitKeepsPlain(n);
    SlashKeepsPlain(n);
    SlashKeepsPlain(n + DOT_GIT);
    assert "/" + n + DOT_GIT == "/" + (n + DOT_GIT);
  }

  lemma QuotesAreRemoved(s: string)
    requires '\'' !in s
    ensures Unquoted("'" + s + "'") == s
  {
    UnquotedConcat("'" + s, "'");
    UnquotedConcat("'", s);
    assert Unquoted("'") == [];
  }

  lemma QuotesMakeNoDots(s: string)
    requires !HasDotDot(s)
    ensures !HasDotDot("'" + s + "'")
  {
  }

  lemma SpellingKey(op: string, spelling: string, n: string)
    requires GitOperation(op) && PlainName(n) && Spells(spelling, n)
    ensures LockKey(op, spelling) == Ok(n)
  {
    OperationChars(op);
    LockKeyIs(op, spelling);
    if Unadorned(spelling, n) {
      UnadornedKey(spelling, n);
      CleanExecChars(spelling);
    } else {
      var s :| Unadorned(s, n) && spelling == "'" + s + "'";
      UnadornedKey(s, n);
      CleanExecChars(spelling);
      QuotesAreRemoved(s);
      QuotesMakeNoDots(s);
    }
  }

  lemma TrimmingAddsNothing(u: string, suffix: string, prefix: string)
    requires suffix != "" && prefix != ""
    ensures var r := TrimPrefix(TrimSuffix(u, suffix), prefix);
            && (forall x :: x in r ==> x in u)
            && (|r| == |u| ==> r == u && !HasSuffix(u, suffix) && !HasPrefix(u, prefix))
  {
  }

  /** A name that is its own key has none of the characters that are cleaned away. */
  lemma OwnKey(n: string)
    requires CleanRepoName(CleanExec(n)) == Ok(n)
    ensures '\'' !in n && '$' !in n && '`' !in n && CleanExec(n) == n
    ensures n != "" && !HasDotDot(n) && n[0] != '/' && !HasSuffix(n, DOT_GIT)
  {
    CleanExecChars(n);
    UnquotedChars(CleanExec(n));
    TrimmingAddsNothing(Unquoted(CleanExec(n)), DOT_GIT, "/");
    assert '\'' !in n && '$' !in n && '`' !in n;
    assert Unquoted(CleanExec(n)) == n;
    assert n[0] == '/' ==> HasPrefix(n, "/");
  }

  lemma DotBeforeGit(n: string)
    requires n != "" && n[|n| - 1] == '.'
    ensures HasDotDot(n + DOT_GIT)
  {
    assert (n + DOT_GIT)[|n| - 1] == '.' && (n + DOT_GIT)[|n| - 1 + 1] == '.';
  }

  lemma AgreementOnDotGit(n: string)
    requires n != "" && '$' !in n && '`' !in n && CleanRepoName(CleanExec(n + DOT_GIT)).Ok?
    ensures n[|n| - 1] != '.'
  {
    CleanExecChars(n + DOT_GIT);
    if n[|n| - 1] == '.' {
      DotBeforeGit(n);
    }
  }

  lemma AgreementIsPlain(n: string)
    requires CleanRepoName(CleanExec(n)) == Ok(n) && CleanRepoName(CleanExec(n + DOT_GIT)) == Ok(n)
    ensures PlainName(n)
  {
    OwnKey(n);
    AgreementOnDotGit(n);
  }

  /** All eight spellings of a name (with or without `.git`, a leading slash, and quotes) lead to the
      lock key `n` exactly when `n` is plain. */
  lemma SpellingsAgreeIffPlain(op: string, n: string)
    requires GitOperation(op)
    ensures (forall spelling :: Spells(spelling, n) ==> LockKey(op, spelling) == Ok(n)) <==> PlainName(n)
  {
    if PlainName(n) {
      forall spelling | Spells(spelling, n) ensures LockKey(op, spelling) == Ok(n) {
        SpellingKey(op, spelling, n);
      }
    } else if forall spelling :: Spells(spelling, n) ==> LockKey(op, spelling) == Ok(n) {
      assert Spells(n, n) && Spells(n + DOT_GIT, n);
      OperationChars(op);
      LockKeyIs(op, n);
      LockKeyIs(op, n + DOT_GIT);
      AgreementIsPlain(n);
    }
  }

  // ---------------------------------------------------------------- any name

  lemma CleanedMiddle(a: string, c: string, b: string)
    ensures CleanExec(a + c + b) == CleanExec(a) + CleanExec(c) + CleanExec(b)
  {
    CleanExecConcat(a + c, b);
    CleanExecConcat(a, c);
  }

  lemma CleanedChars(a: string, b: string)
    ensures CleanExec(a + "$" + b) == CleanExec(a + b) && CleanExec(a + "`" + b) == CleanExec(a + "'" + b)
  {
    CleanExecConcat(a, b);
    CleanedMiddle(a, "$", b);
    CleanedMiddle(a, "`", b);
    CleanedMiddle(a, "'", b);
    assert CleanExec("$") == "" && CleanExec("`") == "'" && CleanExec("'") == "'";
  }

  /** Dollar signs never matter, and backticks are as good as quotes, wherever they are. */
  lemma DollarsVanish(op: string, a: string, b: string)
    requires GitOperation(op)
    ensures LockKey(op, a + "$" + b) == LockKey(op, a + b)
    ensures LockKey(op, a + "`" + b) == LockKey(op, a + "'" + b)
  {
    OperationChars(op);
    CleanedChars(a, b);
    LockKeyIs(op, a + "$" + b);
    LockKeyIs(op, a + b);
    LockKeyIs(op, a + "`" + b);
    LockKeyIs(op, a + "'" + b);
  }

  /** Of names without those, exactly the empty one and those with double dots are refused. */
  lemma RefusedIff(op: string, s: string)
    requires GitOperation(op) && '$' !in s && '`' !in s
    ensures LockKey(op, s) == Failed(EmptyName) <==> s == ""
    ensures LockKey(op, s) == Failed(DirectoryChange) <==> exists i :: 0 <= i < |s| - 1 && s[i] == '.' && s[i + 1] == '.'
  {
    OperationChars(op);
    LockKeyIs(op, s);
    CleanExecChars(s);
  }

  lemma QuoteMakesNoDots(a: string, b: string)
    requires !HasDotDot(a + b)
    ensures !HasDotDot(a + "'" + b)
  {
    var t := a + "'" + b;
    forall i | 0 <= i < |t| - 1 && t[i] == '.' && t[i + 1] == '.' ensures HasDotDot(a + b) {
      var j := if i < |a| then i else i - 1;
      assert (a + b)[j] == t[i] && (a + b)[j + 1] == t[i + 1];
    }
  }

  lemma UnquotedQuote(a: string, b: string)
    ensures Unquoted(a + "'" + b) == Unquoted(a + b)
  {
    UnquotedConcat(a, b);
    UnquotedConcat(a + "'", b);
    UnquotedConcat(a, "'");
    assert Unquoted("'") == "";
  }

  /** A quote in an accepted name does not matter, wherever it is. */
  lemma QuotesVanish(a: string, b: string)
    requires CleanRepoName(a + b).Ok?
    ensures CleanRepoName(a + "'" + b) == CleanRepoName(a + b)
  {
    QuoteMakesNoDots(a, b);
    UnquotedQuote(a, b);
  }

  lemma StemLayer(n: string)
    ensures Stem("/" + (n + ".git")) == n
  {
    assert "/" + (n + ".git") == ("/" + n) + DOT_GIT;
    StemOfDotGit("/" + n);
    TrimSlash(n);
  }

  lemma StemSame(n: string)
    ensures Stem(n) == n <==> !(n != "" && n[0] == '/') && !HasSuffix(n, ".git")
  {
    assert HasPrefix(n, "/") <==> n != "" && n[0] == '/';
  }

  /** Exactly one slash in front and one `.git` behind are removed: whatever an accepted name between
      them is, also one with more of these, it is kept; and a name is its own key exactly if it has
      neither. */
  lemma OneLayerIsRemoved(n: string)
    requires n != "" && '\'' !in n && !HasDotDot(n)
    ensures n[|n| - 1] != '.' ==> CleanRepoName("/" + (n + ".git")) == Ok(n)
    ensures CleanRepoName(n) == Ok(n) <==> n[0] != '/' && !HasSuffix(n, ".git")
  {
    StemSame(n);
    StemLayer(n);
    if n[|n| - 1] != '.' {
      DotGitKeepsPlain(n);
      SlashKeepsPlain(n + ".git");
    }
  }

  // ---------------------------------------------------------------- double dots in accepted names

  /** Two dots of `s` with nothing but quotes between them, such that what begins with the second is not
      just `end` once quotes are removed. */
  ghost predicate DotsMeet(s: string, i: int, j: int, end: string)
  {
    0 <= i < j < |s| && s[i] == '.' && s[j] == '.' && Unquoted(s[j..]) != end
    && forall k :: i < k < j ==> s[k] == '\''
  }

  /** Two neighbouring dots, such that what begins with the second is not just `end`. */
  ghost predicate DotDotAt(s: string, p: int, end: string)
  {
    0 <= p < |s| - 1 && s[p] == '.' && s[p + 1] == '.' && s[p + 1..] != end
  }

  lemma DotDotBeforeGit(s: string, p: int)
    requires DotDotAt(s, p, DOT_GIT) && HasSuffix(s, DOT_GIT)
    ensures p + 1 < |s| - 4
  {
    var e := s[|s| - 4..];
    assert s[|s| - 3] == e[1] == 'g' && s[|s| - 2] == e[2] == 'i' && s[|s| - 1] == e[3] == 't';
  }

  lemma SlashAndDots(t: string)
    ensures HasDotDot(TrimPrefix(t, "/")) <==> HasDotDot(t)
  {
    if HasPrefix(t, "/") {
      var u := t[1..];
      assert t[0] == '/';
      assert forall i :: 0 <= i < |u| ==> u[i] == t[i + 1];
      if HasDotDot(t) {
        var i :| 0 <= i < |t| - 1 && t[i] == '.' && t[i + 1] == '.';
        assert u[i - 1] == '.' && u[i - 1 + 1] == '.';
      }
    }
  }

  lemma StemDots(s: string)
    ensures HasDotDot(Stem(s)) <==> exists p :: DotDotAt(s, p, DOT_GIT)
  {
    var t := TrimSuffix(s, DOT_GIT);
    SlashAndDots(t);
    if HasDotDot(t) {
      var p :| 0 <= p < |t| - 1 && t[p] == '.' && t[p + 1] == '.';
      assert t[p] == s[p] && t[p + 1] == s[p + 1];
      assert HasSuffix(s, DOT_GIT) ==> |s[p + 1..]| > 4;
      assert DotDotAt(s, p, DOT_GIT);
    }
    if p :| DotDotAt(s, p, DOT_GIT) {
      if HasSuffix(s, DOT_GIT) {
        DotDotBeforeGit(s, p);
      }
      assert t[p] == '.' && t[p + 1] == '.';
    }
  }

  lemma {:induction false} FirstUnquoted(s: string) returns (k: nat)
    requires Unquoted(s) != []
    ensures k < |s| && s[k] == Unquoted(s)[0] && Unquoted(s[k..]) == Unquoted(s)
    ensures forall i :: 0 <= i < k ==> s[i] == '\''
  {
    if s[0] == '\'' {
      k := FirstUnquoted(s[1..]);
      assert s[k + 1..] == s[1..][k..];
      k := k + 1;
    } else {
      assert s[0..] == s;
      k := 0;
    }
  }

  lemma {:induction false} SkipQuotes(s: string, j: nat)
    requires j <= |s| && forall k :: 0 <= k < j ==> s[k] == '\''
    ensures Unquoted(s) == Unquoted(s[j..])
  {
    if j == 0 {
      assert s[0..] == s;
    } else {
      SkipQuotes(s[1..], j - 1);
      assert s[1..][j - 1..] == s[j..];
    }
  }

  ghost predicate SomeDotsMeet(s: string, end: string)
  {
    exists i, j :: DotsMeet(s, i, j, end)
  }

  ghost predicate FirstDotMeets(s: string, end: string)
  {
    exists j :: DotsMeet(s, 0, j, end)
  }

  ghost predicate SomeDotDot(s: string, end: string)
  {
    exists p :: DotDotAt(s, p, end)
  }

  lemma MeetShifts(s: string, i: int, j: int, end: string)
    requires s != "" && i >= 0
    ensures DotsMeet(s[1..], i, j, end) <==> DotsMeet(s, i + 1, j + 1, end)
  {
    if i < j < |s| - 1 {
      assert s[j + 1..] == s[1..][j..];
      assert forall k :: i + 1 < k < j + 1 ==> s[k] == s[1..][k - 1];
      assert forall k :: i < k < j ==> s[1..][k] == s[k + 1];
    }
  }

  lemma MeetFirstOrLater(s: string, end: string)
    requires s != ""
    ensures SomeDotsMeet(s, end) <==> FirstDotMeets(s, end) || SomeDotsMeet(s[1..], end)
  {
    if i, j :| DotsMeet(s, i, j, end) && i > 0 {
      MeetShifts(s, i - 1, j - 1, end);
    }
    if i, j :| DotsMeet(s[1..], i, j, end) {
      MeetShifts(s, i, j, end);
    }
  }

  lemma DotDotFirstOrLater(u: string, end: string)
    requires u != ""
    ensures SomeDotDot(u, end) <==> DotDotAt(u, 0, end) || SomeDotDot(u[1..], end)
  {
    if p :| DotDotAt(u, p, end) && p > 0 {
      assert u[p + 1..] == u[1..][p..];
      assert DotDotAt(u[1..], p - 1, end);
    }
    if p :| DotDotAt(u[1..], p, end) {
      assert u[p + 1 + 1..] == u[1..][p + 1..];
      assert DotDotAt(u, p + 1, end);
    }
  }

  lemma UnquotedTail(s: string)
    requires s != "" && s[0] != '\''
    ensures Unquoted(s) != "" && Unquoted(s)[0] == s[0] && Unquoted(s)[1..] == Unquoted(s[1..])
  {
  }

  lemma FirstMeetsMeansDotDot(s: string, j: int, end: string)
    requires DotsMeet(s, 0, j, end)
    ensures DotDotAt(Unquoted(s), 0, end)
  {
    UnquotedTail(s);
    SkipQuotes(s[1..], j - 1);
    assert s[1..][j - 1..] == s[j..];
    UnquotedTail(s[j..]);
  }

  lemma DotDotMeansFirstMeets(s: string, end: string) returns (j: int)
    requires s != "" && s[0] != '\'' && DotDotAt(Unquoted(s), 0, end)
    ensures DotsMeet(s, 0, j, end)
  {
    UnquotedTail(s);
    j := FirstUnquoted(s[1..]);
    assert s[1..][j..] == s[j + 1..];
    j := j + 1;
  }

  lemma FirstMeetsIffDotDot(s: string, end: string)
    requires s != "" && s[0] != '\''
    ensures FirstDotMeets(s, end) <==> DotDotAt(Unquoted(s), 0, end)
  {
    if j :| DotsMeet(s, 0, j, end) {
      FirstMeetsMeansDotDot(s, j, end);
    } else if DotDotAt(Unquoted(s), 0, end) {
      var _ := DotDotMeansFirstMeets(s, end);
    }
  }

  lemma {:induction false} MeetingIsDotDot(s: string, end: string)
    ensures SomeDotsMeet(s, end) <==> SomeDotDot(Unquoted(s), end)
  {
    if s == "" {
    } else {
      MeetingIsDotDot(s[1..], end);
      MeetFirstOrLater(s, end);
      if s[0] != '\'' {
        UnquotedTail(s);
        FirstMeetsIffDotDot(s, end);
        DotDotFirstOrLater(Unquoted(s), end);
      }
    }
  }

  /** The test for double dots comes before quotes are removed. So an accepted name may still have
      double dots: exactly when two of its dots have only quotes between them, and the second is not
      the dot of a final `.git`. */
  lemma AcceptedDotDotIff(name: string)
    requires CleanRepoName(name).Ok?
    ensures HasDotDot(CleanRepoName(name).name) <==> exists i, j :: DotsMeet(name, i, j, DOT_GIT)
  {
    StemDots(Unquoted(name));
    MeetingIsDotDot(name, DOT_GIT);
  }

  /** Such names exist, for instance `.'./x`. */
  lemma QuoteBetweenDots(rest: string)
    requires '\'' !in rest && !HasDotDot("." + rest) && rest != "git"
    ensures var name := ".'." + rest; CleanRepoName(name).Ok? && HasDotDot(CleanRepoName(name).name)
  {
    var name := ".'." + rest;
    assert name[2..] == "." + rest && (name[2..])[1..] == rest;
    assert forall i :: 2 <= i < |name| ==> name[i] == ("." + rest)[i - 2];
    assert Unquoted(name[2..]) == name[2..];
    assert DotsMeet(name, 0, 2, DOT_GIT);
    AcceptedDotDotIff(name);
  }

  // ---------------------------------------------------------------- back from the directory name

  /** The directory a receive for lock key `name` works in. */
  function RepoDir(name: string): (r: string)
  {
    name + DOT_GIT
  }

  /** `Config.App`: the repository without its last dot and what follows. */
  function ConfigApp(repository: string): (r: string)
  {
    BeforeLast(repository, ".")
  }

  /** One element of the cleaner's suffix stripping. */
  function StripGit(dir: string): (r: string)
  {
    BeforeLast(dir, DOT_GIT)
  }

  /** Build and cleaner recover the lock key from the directory, for every key. */
  lemma AppOfRepoDir(name: string)
    ensures ConfigApp(RepoDir(name)) == name && StripGit(RepoDir(name)) == name
  {
    BeforeLastOfAppend(name, DOT_GIT);
    var r := RepoDir(name);
    assert OccursAt(r, ".", |name|);
    assert forall k :: OccursAt(r, ".", k) ==> r[k..k + 1][0] == r[k] == '.';
  }

  /** The application of any repository name, of whatever form: what is before its last dot. */
  lemma AppIsBeforeLastDot(a: string, b: string)
    requires '.' !in b
    ensures ConfigApp(a + "." + b) == a && ConfigApp(b) == b
  {
    var r := a + "." + b;
    assert OccursAt(r, ".", |a|);
    assert forall k :: OccursAt(r, ".", k) ==> r[k..k + 1][0] == r[k] == '.';
    assert forall k :: OccursAt(b, ".", k) ==> b[k..k + 1][0] == b[k] == '.';
  }
}
