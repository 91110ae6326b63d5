/** String helpers the provider relies on: ASCII lower-casing (Ruby's `downcase`
    and the case-insensitive regex flag), prefixes, the first index of a character,
    splitting command output into lines (Ruby's `String#lines`) and splitting a
    command line into its space-separated words. */
module Text {

  /** ASCII lower-casing of one character; every other character is kept. */
  function LowerChar(c: char): char {
    if 'A' <= c <= 'Z' then (c as int - 'A' as int + 'a' as int) as char else c
  }

  function Lower(s: string): (r: string)
    ensures |r| == |s|
    ensures forall i :: 0 <= i < |s| ==> r[i] == LowerChar(s[i])
  {
    seq(|s|, i requires 0 <= i < |s| => LowerChar(s[i]))
  }

  lemma LowerAppend(a: string, b: string)
    ensures Lower(a + b) == Lower(a) + Lower(b)
  {
  }

  /** Equality up to ASCII case, as a case-insensitive literal match sees it. */
  predicate EqualsIgnoreCase(a: string, b: string) {
    Lower(a) == Lower(b)
  }

  predicate StartsWith(s: string, prefix: string) {
    |prefix| <= |s| && s[..|prefix|] == prefix
  }

  predicate EndsWith(s: string, suffix: string) {
    |suffix| <= |s| && s[|s| - |suffix|..] == suffix
  }

  /** Index of the first `c` in `s`, or `|s|` when `s` has none. */
  function IndexOf(s: string, c: char): (i: nat)
    ensures i <= |s|
    ensures i < |s| ==> s[i] == c
    ensures forall j :: 0 <= j < i ==> s[j] != c
  {
    if s == [] || s[0] == c then 0 else 1 + IndexOf(s[1..], c)
  }

  /** Appending `[c] + b` after `a` never moves the first `c`: it is either
      inside `a` or exactly at the junction. */
  lemma IndexOfAppend(a: string, c: char, b: string)
    ensures IndexOf(a + [c] + b, c) == IndexOf(a, c)
  {
    var s := a + [c] + b;
    var i, k := IndexOf(s, c), IndexOf(a, c);
    assert s[|a|] == c;
    if k < |a| {
      assert s[k] == c;
    }
    assert forall j :: 0 <= j < |a| ==> s[j] == a[j];
  }

  // ---------------------------------------------------------------------
  // Lines of command output

  /** The lines of `text` without their terminating newlines. Like Ruby's
      `String#lines`, a final newline does not start an extra empty line and
      the empty text has no lines; the newline is dropped because a `$`
      anchor matches just before it. */
  function Lines(text: string): (ls: seq<string>)
    ensures forall j :: 0 <= j < |ls| ==> '\n' !in ls[j]
    decreases |text|
  {
    if text == [] then []
    else
      var i := IndexOf(text, '\n');
      if i == |text| then [text]
      else [text[..i]] + Lines(text[i + 1..])
  }

  /** Newline-terminated concatenation: the text whose lines are `ls`. */
  function Unlines(ls: seq<string>): string {
    if ls == [] then [] else ls[0] + "\n" + Unlines(ls[1..])
  }

  /** Splitting the text back gives the same lines, provided none of them
      contains a newline. */
  lemma {:induction false} LinesOfUnlines(ls: seq<string>)
    requires forall j :: 0 <= j < |ls| ==> '\n' !in ls[j]
    ensures Lines(Unlines(ls)) == ls
  {
    if ls != [] {
      var rest := Unlines(ls[1..]);
      assert Unlines(ls) == ls[0] + "\n" + rest;
      LinesOfCons(ls[0], rest);
      LinesOfUnlines(ls[1..]);
      assert [ls[0]] + ls[1..] == ls;
    }
  }

  /** A newline-free line followed by a newline is the first line. */
  lemma LinesOfCons(line: string, rest: string)
    requires '\n' !in line
    ensures Lines(line + "\n" + rest) == [line] + Lines(rest)
  {
    var text := line + "\n" + rest;
    IndexOfAppend(line, '\n', rest);
    assert IndexOf(line, '\n') == |line|;
    assert text[..|line|] == line;
    assert text[|line| + 1..] == rest;
  }

  /** Newline-terminated text: empty, or ending in a newline. */
  predicate Terminated(text: string) {
    text == [] || text[|text| - 1] == '\n'
  }

  lemma UnlinesCons(line: string, ls: seq<string>)
    ensures Unlines([line] + ls) == line + "\n" + Unlines(ls)
  {
    assert ([line] + ls)[1..] == ls;
  }

  /** A text is the part before a newline, the newline and the part after. */
  lemma SplitAt(text: string, i: nat)
    requires i < |text| && text[i] == '\n'
    ensures text == text[..i] + "\n" + text[i + 1..]
  {
  }

  /** Joining the lines again restores the text, except that a missing final
      newline is supplied. */
  lemma {:induction false} UnlinesOfLines(text: string)
    ensures Terminated(text) ==> Unlines(Lines(text)) == text
    ensures !Terminated(text) ==> Unlines(Lines(text)) == text + "\n"
    decreases |text|
  {
    if text != [] {
      var i := IndexOf(text, '\n');
      if i == |text| {
        assert Lines(text) == [text];
        UnlinesCons(text, []);
      } else {
        var line, rest := text[..i], text[i + 1..];
        assert Lines(text) == [line] + Lines(rest);
        UnlinesCons(line, Lines(rest));
        UnlinesOfLines(rest);
        SplitAt(text, i);
        if rest == [] {
          assert Terminated(text);
          assert Unlines(Lines(rest)) == [];
        } else {
          assert text[|text| - 1] == rest[|rest| - 1];
          assert Terminated(text) == Terminated(rest);
          if !Terminated(rest) {
            assert text + "\n" == line + "\n" + (rest + "\n");
          }
        }
      }
    }
  }

  // ---------------------------------------------------------------------
  // Words of a command line

  /** The maximal runs of non-space characters of `s`, in order: the argument
      vector a plain command line (no quoting) is split into. */
  function Words(s: string): (ws: seq<string>)
    ensures forall j :: 0 <= j < |ws| ==> ws[j] != [] && ' ' !in ws[j]
    decreases |s|
  {
    if s == [] then []
    else if s[0] == ' ' then Words(s[1..])
    else
      var k := IndexOf(s, ' ');
      [s[..k]] + Words(s[k..])
  }

  /** A single space separates words: the words of `a + " " + b` are those of
      `a` followed by those of `b`, however many spaces `a` or `b` carry. */
  lemma {:induction false} WordsAppend(a: string, b: string)
    ensures Words(a + " " + b) == Words(a) + Words(b)
    decreases |a|
  {
    var s := a + " " + b;
    if a == [] {
      assert s[1..] == b;
    } else if a[0] == ' ' {
      assert s[1..] == a[1..] + " " + b;
      WordsAppend(a[1..], b);
    } else {
      var k := IndexOf(a, ' ');
      IndexOfAppend(a, ' ', b);
      assert s[..k] == a[..k];
      assert s[k..] == a[k..] + " " + b;
      WordsAppend(a[k..], b);
    }
  }

  /** A non-empty string without spaces is one word. */
  lemma WordsOfWord(w: string)
    requires w != [] && ' ' !in w
    ensures Words(w) == [w]
  {
    assert IndexOf(w, ' ') == |w|;
    assert w[..|w|] == w;
  }

  /** A word appended after a space becomes the last word. */
  lemma WordsAppendWord(a: string, w: string)
    requires w != [] && ' ' !in w
    ensures Words(a + " " + w) == Words(a) + [w]
  {
    WordsAppend(a, w);
    WordsOfWord(w);
  }
}
