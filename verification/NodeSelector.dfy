/** The node selector of the builder pod, parsed from `key:value,key:value`. */
module NodeSelector {
  import opened Runs
  import opened GoStrings

  datatype Pair = Pair(key: string, value: string)

  /** The map in which later pairs override earlier ones. */
  function Selector(pairs: seq<Pair>): (m: map<string, string>)
  {
    if pairs == [] then map[]
    else
      var last := pairs[|pairs| - 1];
      Selector(pairs[..|pairs| - 1])[last.key := last.value]
  }

  /** A key is selected exactly if a pair has it, with the value of the last such pair. */
  lemma {:induction false} SelectorIsLast(pairs: seq<Pair>, key: string)
    ensures key in Selector(pairs) <==> exists i :: 0 <= i < |pairs| && pairs[i].key == key
    ensures key in Selector(pairs) ==>
              exists i :: 0 <= i < |pairs| && pairs[i] == Pair(key, Selector(pairs)[key])
                          && forall j :: i < j < |pairs| ==> pairs[j].key != key
  {
    if pairs == [] {
    } else {
      var front, last := pairs[..|pairs| - 1], pairs[|pairs| - 1];
      SelectorIsLast(front, key);
      assert pairs == front + [last];
    }
  }

  predicate OneColon(piece: string)
  {
    |Split(piece, ':')| == 2
  }

  function PairOf(piece: string): (p: Pair)
    requires OneColon(piece)
  {
    var param := Split(piece, ':');
    Pair(TrimSpace(param[0]), TrimSpace(param[1]))
  }

  predicate AllOneColon(pieces: seq<string>)
  {
    forall i :: 0 <= i < |pieces| ==> OneColon(pieces[i])
  }

  function PairsOf(pieces: seq<string>): (r: seq<Pair>)
    requires AllOneColon(pieces)
    ensures |r| == |pieces| && forall i :: 0 <= i < |pieces| ==> r[i] == PairOf(pieces[i])
  {
    if pieces == [] then [] else PairsOf(pieces[..|pieces| - 1]) + [PairOf(pieces[|pieces| - 1])]
  }

  lemma SelectorAppend(pairs: seq<Pair>, p: Pair)
    ensures Selector(pairs + [p]) == Selector(pairs)[p.key := p.value]
  {
    assert (pairs + [p])[..|pairs|] == pairs;
  }

  lemma PairsOfAppend(pieces: seq<string>, piece: string)
    requires AllOneColon(pieces) && OneColon(piece)
    ensures AllOneColon(pieces + [piece]) && PairsOf(pieces + [piece]) == PairsOf(pieces) + [PairOf(piece)]
  {
  }

  lemma SelectorStep(pieces: seq<string>, n: nat)
    requires n < |pieces| && AllOneColon(pieces[..n]) && OneColon(pieces[n])
    ensures AllOneColon(pieces[..n + 1])
    ensures Selector(PairsOf(pieces[..n + 1])) ==
            Selector(PairsOf(pieces[..n]))[PairOf(pieces[n]).key := PairOf(pieces[n]).value]
  {
    assert pieces[..n + 1] == pieces[..n] + [pieces[n]];
    PairsOfAppend(pieces[..n], pieces[n]);
    SelectorAppend(PairsOf(pieces[..n]), PairOf(pieces[n]));
  }

  function Parsed(config: string): (r: Option<map<string, string>>)
  {
    var pieces := Split(config, ',');
    if config == "" then Some(map[])
    else if AllOneColon(pieces) then Some(Selector(PairsOf(pieces)))
    else None
  }

  method BuildBuilderPodNodeSelector(config: string) returns (r: Option<map<string, string>>)
    ensures r == Parsed(config)
  {
    var selector: map<string, string> := map[];
    if config != "" {
      var lines := Split(config, ',');
      for n := 0 to |lines|
        invariant AllOneColon(lines[..n])
        invariant selector == Selector(PairsOf(lines[..n]))
      {
        var param := Split(lines[n], ':');
        if |param| != 2 {
          assert !OneColon(lines[n]);
          return None;
        }
        SelectorStep(lines, n);
        selector := selector[TrimSpace(param[0]) := TrimSpace(param[1])];
      }
      assert lines[..|lines|] == lines;
    }
    return Some(selector);
  }

  lemma {:induction false} SplitCounts(s: string, sep: char)
    ensures |Split(s, sep)| == multiset(s)[sep] + 1
  {
    if s == [] {
    } else {
      SplitCounts(s[1..], sep);
      assert s == [s[0]] + s[1..];
    }
  }

  function ColonsIn(piece: string): nat
  {
    multiset(piece)[':']
  }

  lemma ColonsCount(piece: string)
    ensures OneColon(piece) <==> ColonsIn(piece) == 1
  {
    SplitCounts(piece, ':');
  }

  ghost predicate SomeColonsWrong(pieces: seq<string>)
  {
    exists i :: 0 <= i < |pieces| && ColonsIn(pieces[i]) != 1
  }

  lemma PiecesCount(pieces: seq<string>)
    ensures AllOneColon(pieces) <==> !SomeColonsWrong(pieces)
  {
    forall i | 0 <= i < |pieces| ensures OneColon(pieces[i]) <==> ColonsIn(pieces[i]) == 1 {
      ColonsCount(pieces[i]);
    }
  }

  /** Parsing fails exactly when a piece of a non-empty string does not hold exactly one colon. */
  lemma FailsIffColonsWrong(config: string)
    ensures Parsed(config).None? <==> config != "" && SomeColonsWrong(Split(config, ','))
  {
    PiecesCount(Split(config, ','));
  }

  // ---------------------------------------------------------------- printing and parsing

  /** White space around the key and around the value. */
  datatype Padding = Padding(a: string, b: string, c: string, d: string)

  predicate Plain(s: string)
  {
    Trimmed(s) && ',' !in s && ':' !in s
  }

  predicate Printable(pairs: seq<Pair>, pads: seq<Padding>)
  {
    && |pairs| == |pads|
    && (forall i :: 0 <= i < |pairs| ==> Plain(pairs[i].key) && Plain(pairs[i].value))
    && (forall i :: 0 <= i < |pads| ==> Blank(pads[i].a) && Blank(pads[i].b) && Blank(pads[i].c) && Blank(pads[i].d))
  }

  function Piece(p: Pair, w: Padding): (s: string)
  {
    (w.a + p.key + w.b) + ":" + (w.c + p.value + w.d)
  }

  function Print(pairs: seq<Pair>, pads: seq<Padding>): (s: string)
    requires |pairs| == |pads|
  {
    if pairs == [] then "" else Join(seq(|pairs|, i requires 0 <= i < |pairs| => Piece(pairs[i], pads[i])), ',')
  }

  lemma BlankChars(s: string)
    requires Blank(s)
    ensures ',' !in s && ':' !in s
  {
  }

  lemma PieceParses(p: Pair, w: Padding)
    requires Plain(p.key) && Plain(p.value) && Blank(w.a) && Blank(w.b) && Blank(w.c) && Blank(w.d)
    ensures ',' !in Piece(p, w) && OneColon(Piece(p, w)) && PairOf(Piece(p, w)) == p
  {
    var left, right := w.a + p.key + w.b, w.c + p.value + w.d;
    BlankChars(w.a);
    BlankChars(w.b);
    BlankChars(w.c);
    BlankChars(w.d);
    SplitFirst(left, ':', right);
    SplitOne(right, ':');
    TrimSpacePadded(w.a, p.key, w.b);
    TrimSpacePadded(w.c, p.value, w.d);
  }

  lemma {:induction false} JoinNotEmpty(parts: seq<string>, sep: char)
    requires |parts| > 0 && parts[0] != ""
    ensures Join(parts, sep) != ""
  {
  }

  /** Whatever list of plain pairs is printed, with whatever padding, parses to the map in which later
      pairs override earlier ones. */
  lemma PrintedParses(pairs: seq<Pair>, pads: seq<Padding>)
    requires Printable(pairs, pads)
    ensures Parsed(Print(pairs, pads)) == Some(Selector(pairs))
  {
    if pairs != [] {
      var pieces := seq(|pairs|, i requires 0 <= i < |pairs| => Piece(pairs[i], pads[i]));
      forall i | 0 <= i < |pairs|
        ensures ',' !in pieces[i] && OneColon(pieces[i]) && PairOf(pieces[i]) == pairs[i]
      {
        PieceParses(pairs[i], pads[i]);
      }
      SplitJoin(pieces, ',');
      JoinNotEmpty(pieces, ',');
      assert pairs == PairsOf(pieces);
    }
  }
}
