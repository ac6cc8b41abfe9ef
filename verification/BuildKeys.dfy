/** Storage keys: how a build names its tarball, and what the cleaner's pattern for an application
    accepts. */
module BuildKeys {
  import opened Runs
  import opened GoStrings
  import Hex

  const HOME: string := "home/"
  const GIT_TAG: string := ":git-"

  /** A full git hash is 40 lower-case hexadecimal digits; its short form is the first eight. */
  predicate IsSha(raw: string)
  {
    |raw| == 40 && forall i :: 0 <= i < |raw| ==> Hex.Value(raw[i]).Some?
  }

  function ShortSha(raw: string): (r: Option<string>)
    ensures r.Some? <==> |raw| == 40 && forall i :: 0 <= i < |raw| ==> raw[i] in "0123456789abcdef"
    ensures r.Some? ==> |r.value| == 8 && r.value <= raw
  {
    Hex.AllDigits();
    if IsSha(raw) then Some(raw[..8]) else None
  }

  function GitKey(app: string, sha: string): (r: string)
  {
    HOME + app + GIT_TAG + sha
  }

  function TarKey(app: string, sha: string): (r: string)
  {
    GitKey(app, sha) + "/tar"
  }

  /** The key under which the storage lists the parent of a tarball. */
  function ListedKey(app: string, sha: string): (r: string)
  {
    "/" + GitKey(app, sha)
  }

  /** The keys as they are written. */
  lemma KeysAreWritten(app: string, sha: string)
    ensures TarKey(app, sha) == "home/" + app + ":git-" + sha + "/tar"
    ensures ListedKey(app, sha) == "/home/" + app + ":git-" + sha
  {
    assert "/" + HOME == "/home/";
    assert "/" + (HOME + app + GIT_TAG + sha) == "/" + HOME + app + GIT_TAG + sha;
  }

  /** The fixed length of the hash makes keys uniquely decodable, whatever the names contain. */
  lemma KeysDecode(app: string, sha: string, app': string, sha': string)
    requires |sha| == |sha'| && GitKey(app, sha) == GitKey(app', sha')
    ensures app == app' && sha == sha'
  {
    var k, k' := GitKey(app, sha), GitKey(app', sha');
    assert |app| == |app'|;
    assert app == k[5..5 + |app|] && app' == k'[5..5 + |app|];
    assert sha == k[|k| - |sha|..] && sha' == k'[|k| - |sha|..];
  }

  // ---------------------------------------------------------------- regular expressions

  /** One character of a match: a given one, or any but a line break. */
  datatype Item = Literal(c: char) | AnyChar

  predicate Admits(item: Item, c: char)
  {
    match item
    case Literal(d) => c == d
    case AnyChar => c != '\n'
  }

  predicate Fits(items: seq<Item>, key: string)
  {
    |key| == |items| && forall i :: 0 <= i < |items| ==> Admits(items[i], key[i])
  }

  /** Characters with a meaning in regular expressions, other than the dot. */
  predicate Special(c: char)
  {
    c in {'\\', '+', '*', '?', '(', ')', '|', '[', ']', '{', '}', '^', '$'}
  }

  function ItemOf(c: char): Item
  {
    if c == '.' then AnyChar else Literal(c)
  }

  /** The text begins with a character and a repeat count of one digit. */
  predicate Repeats(text: string)
  {
    |text| >= 4 && text[1] == '{' && '0' <= text[2] <= '9' && text[3] == '}'
  }

  /** What a text of plain characters, dots and repeat counts stands for. */
  function Items(text: string): (r: Option<seq<Item>>)
  {
    if text == "" then Some([])
    else if Special(text[0]) then None
    else
      var count := if Repeats(text) then text[2] as int - '0' as int else 1;
      match Items(text[if Repeats(text) then 4 else 1..])
      case None => None
      case Some(rest) => Some(seq(count, _ => ItemOf(text[0])) + rest)
  }

  /** What a pattern anchored at both ends stands for. */
  function Meaning(pattern: string): (r: Option<seq<Item>>)
  {
    if |pattern| >= 2 && pattern[0] == '^' && pattern[|pattern| - 1] == '$' then Items(pattern[1..|pattern| - 1]) else None
  }

  /** The regular expression engine: a compiled matcher, or `None` if the pattern does not compile. */
  type Engine = string -> Option<string -> bool>

  /** What the engine is taken to do: it compiles every such pattern to a matcher for what it stands for. */
  ghost predicate EngineIsSound(engine: Engine)
  {
    forall pattern :: Meaning(pattern).Some? ==>
      engine(pattern).Some? && forall key :: engine(pattern).value(key) <==> Fits(Meaning(pattern).value, key)
  }

  function Plainly(s: string): (r: seq<Item>)
    ensures |r| == |s| && forall i :: 0 <= i < |s| ==> r[i] == ItemOf(s[i])
  {
    seq(|s|, i requires 0 <= i < |s| => ItemOf(s[i]))
  }

  lemma {:induction false} PlainItems(s: string, rest: string)
    requires (forall i :: 0 <= i < |s| ==> !Special(s[i])) && (rest == "" || rest[0] != '{') && Items(rest).Some?
    ensures Items(s + rest) == Some(Plainly(s) + Items(rest).value)
  {
    if s == "" {
      assert s + rest == rest;
      assert Plainly(s) + Items(rest).value == Items(rest).value;
    } else {
      PlainItems(s[1..], rest);
      assert (s + rest)[1..] == s[1..] + rest;
      if |s + rest| > 1 {
        assert (s + rest)[1] == if |s| > 1 then s[1] else rest[0];
      }
      assert !Repeats(s + rest);
      var item := ItemOf(s[0]);
      assert seq(1, _ => item) == [item];
      assert Plainly(s) == [item] + Plainly(s[1..]);
      assert [item] + (Plainly(s[1..]) + Items(rest).value) == Plainly(s) + Items(rest).value;
    }
  }

  // ---------------------------------------------------------------- the cleaner's pattern

  function Pattern(app: string): (r: string)
  {
    "^/" + GitKey(app, ".{8}") + "$"
  }

  predicate Accepts(engine: Engine, app: string, key: string)
  {
    engine(Pattern(app)).Some? && engine(Pattern(app)).value(key)
  }

  /** Names in which the dot is the only character with a meaning in regular expressions. */
  predicate DotOnly(app: string)
  {
    forall i :: 0 <= i < |app| ==> !Special(app[i])
  }

  predicate CharMatches(p: char, c: char)
  {
    p == c || (p == '.' && c != '\n')
  }

  /** The keys of the form `/home/<app>:git-<eight characters>`, with the dots of the name as wildcards. */
  predicate Matches(app: string, key: string)
  {
    && |key| == 6 + |app| + 5 + 8
    && key[..6] == "/home/"
    && (forall i :: 0 <= i < |app| ==> CharMatches(app[i], key[6 + i]))
    && key[6 + |app|..6 + |app| + 5] == GIT_TAG
    && '\n' !in key[6 + |app| + 5..]
  }

  lemma EightAny()
    ensures Items(".{8}") == Some(seq(8, _ => AnyChar))
  {
    assert ".{8}"[4..] == "";
    assert Items("") == Some([]);
    assert seq(8, _ => ItemOf('.')) + [] == seq(8, _ => AnyChar);
  }

  lemma PatternItems(app: string)
    requires DotOnly(app)
    ensures Meaning(Pattern(app)) == Some(Plainly("/home/" + app + GIT_TAG) + seq(8, _ => AnyChar))
  {
    var plain := "/home/" + app + GIT_TAG;
    assert Pattern(app)[1..|Pattern(app)| - 1] == plain + ".{8}";
    EightAny();
    PlainItems(plain, ".{8}");
  }

  lemma PlainFits(s: string, key: string)
    requires |key| == |s|
    ensures Fits(Plainly(s), key) <==> forall i :: 0 <= i < |s| ==> CharMatches(s[i], key[i])
  {
    forall i | 0 <= i < |s| ensures Admits(Plainly(s)[i], key[i]) <==> CharMatches(s[i], key[i]) {
    }
  }

  lemma FitsConcat(a: seq<Item>, b: seq<Item>, key: string)
    requires |key| == |a| + |b|
    ensures Fits(a + b, key) <==> Fits(a, key[..|a|]) && Fits(b, key[|a|..])
  {
    if Fits(a + b, key) {
      assert forall i :: 0 <= i < |b| ==> (a + b)[|a| + i] == b[i];
    }
  }

  lemma LiteralFits(s: string, key: string)
    requires '.' !in s
    ensures Fits(Plainly(s), key) <==> key == s
  {
    if |key| == |s| {
      PlainFits(s, key);
    }
  }

  lemma AnyFits(n: nat, key: string)
    ensures Fits(seq(n, _ => AnyChar), key) <==> |key| == n && '\n' !in key
  {
  }

  lemma PlainlyConcat(a: string, b: string)
    ensures Plainly(a + b) == Plainly(a) + Plainly(b)
  {
  }

  lemma TwoParts(home: string, app: string, text: string)
    requires '.' !in home && |text| == |home| + |app|
    ensures Fits(Plainly(home + app), text) <==>
              text[..|home|] == home && forall i :: 0 <= i < |app| ==> CharMatches(app[i], text[|home|..][i])
  {
    PlainlyConcat(home, app);
    FitsConcat(Plainly(home), Plainly(app), text);
    LiteralFits(home, text[..|home|]);
    PlainFits(app, text[|home|..]);
  }

  lemma ThreeParts(home: string, app: string, tag: string, text: string)
    requires '.' !in home && '.' !in tag && |text| == |home| + |app| + |tag|
    ensures var a := |home| + |app|;
            Fits(Plainly(home + app + tag), text) <==> Fits(Plainly(home + app), text[..a]) && text[a..] == tag
  {
    PlainlyConcat(home + app, tag);
    FitsConcat(Plainly(home + app), Plainly(tag), text);
    LiteralFits(tag, text[|home| + |app|..]);
  }

  /** A pattern of four parts accepts what the parts accept one after the other. */
  lemma FourParts(home: string, app: string, tag: string, n: nat, key: string)
    requires '.' !in home && '.' !in tag && |key| == |home| + |app| + |tag| + n
    ensures var h, a, t := |home|, |home| + |app|, |home| + |app| + |tag|;
            Fits(Plainly(home + app + tag) + seq(n, _ => AnyChar), key) <==>
              && key[..h] == home && (forall i :: 0 <= i < |app| ==> CharMatches(app[i], key[h..a][i]))
              && key[a..t] == tag && '\n' !in key[t..]
  {
    var h, a, t := |home|, |home| + |app|, |home| + |app| + |tag|;
    FitsConcat(Plainly(home + app + tag), seq(n, _ => AnyChar), key);
    AnyFits(n, key[t..]);
    ThreeParts(home, app, tag, key[..t]);
    assert key[..t][..a] == key[..a] && key[..t][a..] == key[a..t];
    TwoParts(home, app, key[..a]);
    assert key[..a][..h] == key[..h] && key[..a][h..] == key[h..a];
  }

  /** The text that the cleaner compiles for an application stands for exactly these keys. */
  lemma PatternMeansMatches(app: string, key: string)
    requires DotOnly(app)
    ensures Meaning(Pattern(app)).Some? && (Fits(Meaning(Pattern(app)).value, key) <==> Matches(app, key))
  {
    PatternItems(app);
    if |key| == 6 + |app| + 5 + 8 {
      FourParts("/home/", app, GIT_TAG, 8, key);
      var name := key[6..6 + |app|];
      assert forall i :: 0 <= i < |app| ==> name[i] == key[6 + i];
    }
  }

  lemma AcceptsIffMatches(engine: Engine, app: string, key: string)
    requires EngineIsSound(engine) && DotOnly(app)
    ensures engine(Pattern(app)).Some? && (Accepts(engine, app, key) <==> Matches(app, key))
  {
    PatternMeansMatches(app, key);
  }

  lemma ListedKeyParts(app: string, sha: string)
    ensures var k := ListedKey(app, sha);
            && |k| == 6 + |app| + 5 + |sha| && k[..6] == "/home/"
            && k[6..6 + |app|] == app
            && k[6 + |app|..6 + |app| + 5] == GIT_TAG && k[6 + |app| + 5..] == sha
  {
  }

  lemma OwnKeyFits(app: string, raw: string)
    requires IsSha(raw)
    ensures Matches(app, ListedKey(app, ShortSha(raw).value))
  {
  }

  /** The compiled pattern of an application accepts the parent key of every tarball built for it. */
  lemma OwnKeysMatch(engine: Engine, app: string, raw: string)
    requires EngineIsSound(engine) && DotOnly(app) && IsSha(raw)
    ensures var sha := ShortSha(raw).value;
            "/" + TarKey(app, sha) == ListedKey(app, sha) + "/tar" && Accepts(engine, app, ListedKey(app, sha))
  {
    var key := ListedKey(app, ShortSha(raw).value);
    OwnKeyFits(app, raw);
    AcceptsIffMatches(engine, app, key);
  }

  /** A key of another name fits only through a dot. */
  lemma ForeignKeyNeedsDot(app: string, other: string, sha: string)
    requires |sha| == 8 && Matches(app, ListedKey(other, sha))
    ensures |other| == |app| && forall i :: 0 <= i < |app| ==> CharMatches(app[i], other[i])
  {
  }

  lemma DotLetsStrangersIn(app: string, i: nat, raw: string)
    requires i < |app| && app[i] == '.' && IsSha(raw)
    ensures |raw[..8]| == 8 && app[i := 'x'] != app && Matches(app, ListedKey(app[i := 'x'], raw[..8]))
  {
    var other := app[i := 'x'];
    OwnKeyFits(other, raw);
    assert other[i] != app[i];
    assert forall j :: 0 <= j < |app| ==> CharMatches(app[j], other[j]);
    ListedKeyParts(other, raw[..8]);
    var k := ListedKey(other, raw[..8]);
    assert forall j :: 0 <= j < |other| ==> other[j] == k[6..6 + |other|][j] == k[6 + j];
  }

  /** Among names in which only the dot is special to regular expressions, the compiled pattern accepts
      no other application's keys exactly when the name has no dot in it. */
  lemma NoForeignKeysIffNoDot(engine: Engine, app: string)
    requires EngineIsSound(engine) && DotOnly(app)
    ensures (forall other, sha :: |sha| == 8 && other != app ==> !Accepts(engine, app, ListedKey(other, sha)))
            <==> '.' !in app
  {
    if '.' !in app {
      forall other, sha | |sha| == 8 && Accepts(engine, app, ListedKey(other, sha)) ensures other == app {
        AcceptsIffMatches(engine, app, ListedKey(other, sha));
        ForeignKeyNeedsDot(app, other, sha);
      }
    } else {
      var i :| 0 <= i < |app| && app[i] == '.';
      var raw := seq(40, _ => '0');
      DotLetsStrangersIn(app, i, raw);
      AcceptsIffMatches(engine, app, ListedKey(app[i := 'x'], raw[..8]));
    }
  }
}
