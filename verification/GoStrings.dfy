/** The parts of Go's `strings` package that the modelled code uses. */
module GoStrings {

  predicate HasPrefix(s: string, p: string)
  {
    p <= s
  }

  predicate HasSuffix(s: string, p: string)
  {
    |p| <= |s| && s[|s| - |p|..] == p
  }

  function TrimPrefix(s: string, p: string): string
  {
    if HasPrefix(s, p) then s[|p|..] else s
  }

  function TrimSuffix(s: string, p: string): string
  {
    if HasSuffix(s, p) then s[..|s| - |p|] else s
  }

  predicate OccursAt(s: string, p: string, k: int)
  {
    0 <= k <= |s| - |p| && s[k..k + |p|] == p
  }

  function LastIndexFrom(s: string, p: string, from: int): (i: int)
    ensures i == -1 || (i <= from && OccursAt(s, p, i))
    ensures forall k :: i < k <= from ==> !OccursAt(s, p, k)
    decreases from + 1
  {
    if from < 0 then -1
    else if OccursAt(s, p, from) then from
    else LastIndexFrom(s, p, from - 1)
  }

  /** The start of the last occurrence of `p` in `s`, or -1. */
  function LastIndex(s: string, p: string): (i: int)
    ensures i == -1 || OccursAt(s, p, i)
    ensures forall k :: i < k ==> !OccursAt(s, p, k)
  {
    LastIndexFrom(s, p, |s| - |p|)
  }

  /** What is before the last occurrence of `p`; all of `s` if there is none. */
  function BeforeLast(s: string, p: string): (r: string)
    ensures r <= s
    ensures (forall k :: !OccursAt(s, p, k)) ==> r == s
    ensures (exists k :: OccursAt(s, p, k)) ==> OccursAt(s, p, |r|) && forall k :: |r| < k ==> !OccursAt(s, p, k)
  {
    var i := LastIndex(s, p);
    if i >= 0 then s[..i] else s
  }

  /** Whatever precedes a final `p` is what is before the last `p`. */
  lemma BeforeLastOfAppend(n: string, p: string)
    ensures BeforeLast(n + p, p) == n
  {
  }

  /** The pieces of `s` between occurrences of `sep`; always at least one. */
  function Split(s: string, sep: char): (r: seq<string>)
    ensures |r| > 0
    ensures forall i :: 0 <= i < |r| ==> sep !in r[i]
  {
    if s == [] then [[]]
    else
      var rest := Split(s[1..], sep);
      if s[0] == sep then [[]] + rest else [[s[0]] + rest[0]] + rest[1..]
  }

  function Join(parts: seq<string>, sep: char): string
    requires |parts| > 0
  {
    if |parts| == 1 then parts[0] else parts[0] + [sep] + Join(parts[1..], sep)
  }

  lemma {:induction false} SplitOne(s: string, sep: char)
    requires sep !in s
    ensures Split(s, sep) == [s]
  {
    if s == [] {
    } else {
      SplitOne(s[1..], sep);
      assert [s[0]] + s[1..] == s;
    }
  }

  lemma {:induction false} SplitFirst(s: string, sep: char, rest: string)
    requires sep !in s
    ensures Split(s + [sep] + rest, sep) == [s] + Split(rest, sep)
  {
    var t := s + [sep] + rest;
    if s == [] {
      assert t[1..] == rest;
    } else {
      assert t[1..] == s[1..] + [sep] + rest;
      SplitFirst(s[1..], sep, rest);
      assert [s[0]] + s[1..] == s;
      assert ([s[1..]] + Split(rest, sep))[1..] == Split(rest, sep);
    }
  }

  lemma {:induction false} SplitConcat(s: string, sep: char, rest: string)
    ensures Split(s + [sep] + rest, sep) == Split(s, sep) + Split(rest, sep)
  {
    var t := s + [sep] + rest;
    if s == [] {
      assert t[1..] == rest;
    } else {
      assert t[1..] == s[1..] + [sep] + rest;
      SplitConcat(s[1..], sep, rest);
    }
  }

  /** Splitting undoes joining. */
  lemma {:induction false} SplitJoin(parts: seq<string>, sep: char)
    requires |parts| > 0 && forall i :: 0 <= i < |parts| ==> sep !in parts[i]
    ensures Split(Join(parts, sep), sep) == parts
  {
    if |parts| == 1 {
      SplitOne(parts[0], sep);
    } else {
      SplitJoin(parts[1..], sep);
      SplitFirst(parts[0], sep, Join(parts[1..], sep));
    }
  }

  /** White space as `strings.TrimSpace` sees it. */
  predicate IsSpace(c: char)
  {
    || '\t' <= c <= '\r' || c == ' ' || c == '\U{85}' || c == '\U{A0}' || c == '\U{1680}'
    || '\U{2000}' <= c <= '\U{200A}' || c == '\U{2028}' || c == '\U{2029}' || c == '\U{202F}'
    || c == '\U{205F}' || c == '\U{3000}'
  }

  /** The white space among the first 256 characters. */
  lemma SpacesAre(c: char)
    requires c <= '\U{FF}'
    ensures IsSpace(c) <==> c in ['\t', '\n', '\U{0B}', '\U{0C}', '\r', ' ', '\U{85}', '\U{A0}']
  {
  }

  function TrimLeft(s: string): string
  {
    if s != [] && IsSpace(s[0]) then TrimLeft(s[1..]) else s
  }

  function TrimRight(s: string): string
  {
    if s != [] && IsSpace(s[|s| - 1]) then TrimRight(s[..|s| - 1]) else s
  }

  function TrimSpace(s: string): string
  {
    TrimRight(TrimLeft(s))
  }

  /** A string without white space at its ends. */
  predicate Trimmed(s: string)
  {
    s == [] || (!IsSpace(s[0]) && !IsSpace(s[|s| - 1]))
  }

  predicate Blank(s: string)
  {
    forall i :: 0 <= i < |s| ==> IsSpace(s[i])
  }

  lemma {:induction false} TrimLeftBlank(pad: string, s: string)
    requires Blank(pad)
    ensures TrimLeft(pad + s) == TrimLeft(s)
  {
    if pad == [] {
      assert pad + s == s;
    } else {
      assert (pad + s)[1..] == pad[1..] + s;
      TrimLeftBlank(pad[1..], s);
    }
  }

  lemma {:induction false} TrimRightBlank(s: string, pad: string)
    requires Blank(pad)
    ensures TrimRight(s + pad) == TrimRight(s)
  {
    if pad == [] {
      assert s + pad == s;
    } else {
      assert (s + pad)[..|s + pad| - 1] == s + pad[..|pad| - 1];
      TrimRightBlank(s, pad[..|pad| - 1]);
    }
  }

  /** Trimming removes exactly the padding. */
  lemma TrimSpacePadded(before: string, s: string, after: string)
    requires Blank(before) && Blank(after) && Trimmed(s)
    ensures TrimSpace(before + s + after) == s
  {
    assert before + s + after == before + (s + after);
    TrimLeftBlank(before, s + after);
    if s == [] {
      assert s + after == after + [];
      TrimLeftBlank(after, []);
    } else {
      TrimRightBlank(s, after);
    }
  }

  function LowerChar(c: char): char
  {
    if 'A' <= c <= 'Z' then ((c as int) + 32) as char else c
  }

  /** The letters that change, and into what. */
  lemma LowerLetters(i: nat)
    requires i < 26
    ensures LowerChar("ABCDEFGHIJKLMNOPQRSTUVWXYZ"[i]) == "abcdefghijklmnopqrstuvwxyz"[i]
  {
  }

  lemma OthersStay(c: char)
    ensures LowerChar(c) != c ==> c in "ABCDEFGHIJKLMNOPQRSTUVWXYZ"
  {
    if LowerChar(c) != c {
      assert "ABCDEFGHIJKLMNOPQRSTUVWXYZ"[c as int - 65] == c;
    }
  }

  function ToLower(s: string): (r: string)
    ensures |r| == |s| && forall i :: 0 <= i < |s| ==> r[i] == LowerChar(s[i])
  {
    seq(|s|, i requires 0 <= i < |s| => LowerChar(s[i]))
  }
}
