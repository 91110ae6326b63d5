/** Reading the installed version out of the text `pip list` prints
    (current_installed_version in providers/pip.rb). A listing line reads
    `<name> (<version>)`; the search matches the whole line, ignores the case
    of the name, and looks for the package name with every `_` spelled `-`. */
module Listing {
  import opened Wrappers
  import opened Text

  /** The package name as the listing is searched for it: `_` becomes `-`. */
  function NormalizeName(name: string): (n: string)
    ensures |n| == |name| && '_' !in n
    ensures '_' !in name ==> n == name
  {
    seq(|name|, i requires 0 <= i < |name| => if name[i] == '_' then '-' else name[i])
  }

  predicate IsSeparator(c: char) {
    c == '_' || c == '-'
  }

  /** Two names are searched for identically exactly when they agree at every
      position except where both hold a `_` or a `-`. */
  lemma SameNormalForm(a: string, b: string)
    ensures NormalizeName(a) == NormalizeName(b) <==>
      |a| == |b| && forall i :: 0 <= i < |a| ==> a[i] == b[i] || (IsSeparator(a[i]) && IsSeparator(b[i]))
  {
    if NormalizeName(a) == NormalizeName(b) {
      forall i | 0 <= i < |a|
        ensures a[i] == b[i] || (IsSeparator(a[i]) && IsSeparator(b[i]))
      {
        assert NormalizeName(a)[i] == NormalizeName(b)[i];
      }
    }
  }

  /** A captured version: non-empty and free of `)`. */
  predicate IsVersionToken(v: string) {
    v != [] && ')' !in v
  }

  /** The line pip prints for a package shown as `shown` at version `v`. */
  function ListingLine(shown: string, v: string): string {
    shown + " (" + v + ")"
  }

  /** The version a single line (without its newline) gives for `name`, if the
      line is `<name> (<version>)` with the name matched case-insensitively.
      Every line that gives a version has exactly that shape, so nothing else
      is ever accepted. */
  function ParseLine(name: string, line: string): (r: Option<string>)
    ensures r.Some? ==>
      var n := NormalizeName(name);
      |n| <= |line|
      && line == ListingLine(line[..|n|], r.value)
      && EqualsIgnoreCase(line[..|n|], n)
      && IsVersionToken(r.value)
  {
    var n := NormalizeName(name);
    if |n| + 4 <= |line|
       && EqualsIgnoreCase(line[..|n|], n)
       && line[|n|..|n| + 2] == " ("
       && line[|line| - 1] == ')'
       && IsVersionToken(line[|n| + 2..|line| - 1])
    then
      assert line == line[..|n|] + line[|n|..|n| + 2] + line[|n| + 2..|line| - 1] + line[|line| - 1..];
      Some(line[|n| + 2..|line| - 1])
    else None
  }

  /** A constructed listing line parses back to its version exactly when the
      shown name matches the search name up to case and the version is a
      proper token. */
  lemma ParseListingLine(name: string, shown: string, v: string)
    ensures ParseLine(name, ListingLine(shown, v)) == Some(v) <==>
      EqualsIgnoreCase(shown, NormalizeName(name)) && IsVersionToken(v)
  {
    var n := NormalizeName(name);
    var line := ListingLine(shown, v);
    if EqualsIgnoreCase(shown, n) && IsVersionToken(v) {
      assert |shown| == |n|;
      assert line[..|n|] == shown;
      assert line[|n|..|n| + 2] == " (";
      assert line[|n| + 2..|line| - 1] == v;
    }
    if ParseLine(name, line) == Some(v) {
      assert |shown| == |n|;
      assert line[..|n|] == shown;
    }
  }

  /** No line of `lines` is a listing line for `name`. */
  predicate Unlisted(name: string, lines: seq<string>) {
    forall j :: 0 <= j < |lines| ==> ParseLine(name, lines[j]).None?
  }

  /** Line `j` is the first line of `lines` that is a listing line for `name`. */
  predicate FirstMatchAt(name: string, lines: seq<string>, j: int) {
    0 <= j < |lines| && ParseLine(name, lines[j]).Some? && Unlisted(name, lines[..j])
  }

  /** Ruby's `find`: the version from the first line that parses, or `None`
      when no line does. */
  function FindVersion(name: string, lines: seq<string>): (r: Option<string>)
    ensures r.None? <==> Unlisted(name, lines)
    ensures forall j :: FirstMatchAt(name, lines, j) ==> r == ParseLine(name, lines[j])
    ensures r.Some? ==> exists j :: 0 <= j < |lines| && ParseLine(name, lines[j]) == r
  {
    if lines == [] then None
    else
      var first := ParseLine(name, lines[0]);
      if first.Some? then first
      else
        var r := FindVersion(name, lines[1..]);
        SearchPastMiss(name, lines, r);
        r
  }

  /** When the first line does not match, searching the rest answers for the
      whole: what holds of the answer for `lines[1..]` holds for `lines`. */
  lemma SearchPastMiss(name: string, lines: seq<string>, r: Option<string>)
    requires lines != [] && ParseLine(name, lines[0]).None?
    requires r.None? <==> Unlisted(name, lines[1..])
    requires forall j :: FirstMatchAt(name, lines[1..], j) ==> r == ParseLine(name, lines[1..][j])
    requires r.Some? ==> exists j :: 0 <= j < |lines[1..]| && ParseLine(name, lines[1..][j]) == r
    ensures r.None? <==> Unlisted(name, lines)
    ensures forall j :: FirstMatchAt(name, lines, j) ==> r == ParseLine(name, lines[j])
    ensures r.Some? ==> exists j :: 0 <= j < |lines| && ParseLine(name, lines[j]) == r
  {
    var rest := lines[1..];
    forall j | FirstMatchAt(name, lines, j)
      ensures r == ParseLine(name, lines[j])
    {
      ShiftFirstMatch(name, lines, j);
    }
    assert forall k :: 0 <= k < |rest| ==> rest[k] == lines[k + 1];
    if r.Some? {
      var j :| 0 <= j < |rest| && ParseLine(name, rest[j]) == r;
      assert rest[j] == lines[j + 1];
    }
  }

  /** Past a first line that does not match, the first match moves up by one. */
  lemma ShiftFirstMatch(name: string, lines: seq<string>, j: int)
    requires FirstMatchAt(name, lines, j) && ParseLine(name, lines[0]).None?
    ensures j > 0 && FirstMatchAt(name, lines[1..], j - 1)
  {
    var rest := lines[1..];
    assert j != 0;
    assert rest[j - 1] == lines[j];
    assert rest[..j - 1] == lines[..j][1..];
  }

  /** The installed version of `name` according to the output of `pip list`. */
  function InstalledVersion(name: string, listing: string): (r: Option<string>)
    ensures r.None? <==> Unlisted(name, Lines(listing))
    ensures forall j :: FirstMatchAt(name, Lines(listing), j) ==> r == ParseLine(name, Lines(listing)[j])
    ensures r.Some? ==> IsVersionToken(r.value) && '\n' !in r.value
  {
    var ls := Lines(listing);
    FoundVersionHasNoNewline(name, ls);
    FindVersion(name, ls)
  }

  /** A version found among newline-free lines is itself newline-free. */
  lemma FoundVersionHasNoNewline(name: string, ls: seq<string>)
    requires forall j :: 0 <= j < |ls| ==> '\n' !in ls[j]
    ensures FindVersion(name, ls).Some? ==>
      IsVersionToken(FindVersion(name, ls).value) && '\n' !in FindVersion(name, ls).value
  {
    var r := FindVersion(name, ls);
    if r.Some? {
      var j :| 0 <= j < |ls| && ParseLine(name, ls[j]) == r;
      var n := NormalizeName(name);
      assert ls[j] == (ls[j][..|n|] + " (") + r.value + ")";
    }
  }

  /** A listing whose first matching line is built for the package yields that
      line's version. */
  lemma VersionFromListing(name: string, before: seq<string>, shown: string, v: string, after: seq<string>)
    requires forall j :: 0 <= j < |before| ==> '\n' !in before[j] && ParseLine(name, before[j]).None?
    requires forall j :: 0 <= j < |after| ==> '\n' !in after[j]
    requires '\n' !in shown && '\n' !in v
    requires EqualsIgnoreCase(shown, NormalizeName(name)) && IsVersionToken(v)
    ensures InstalledVersion(name, Unlines(before + [ListingLine(shown, v)] + after)) == Some(v)
  {
    var line := ListingLine(shown, v);
    var ls := before + [line] + after;
    NoNewlineInListingLine(shown, v);
    NoNewlineAround(before, line, after);
    LinesOfUnlines(ls);
    ParseListingLine(name, shown, v);
    FirstMatchAfter(name, before, line, after);
    FirstMatchDecides(name, ls, |before|);
  }

  /** A matching line after lines that do not match is the first match. */
  lemma FirstMatchAfter(name: string, before: seq<string>, line: string, after: seq<string>)
    requires Unlisted(name, before) && ParseLine(name, line).Some?
    ensures FirstMatchAt(name, before + [line] + after, |before|)
    ensures (before + [line] + after)[|before|] == line
  {
    var ls := before + [line] + after;
    assert ls[..|before|] == before;
  }

  /** Newline-free lines around a newline-free line stay newline-free. */
  lemma NoNewlineAround(before: seq<string>, line: string, after: seq<string>)
    requires forall j :: 0 <= j < |before| ==> '\n' !in before[j]
    requires forall j :: 0 <= j < |after| ==> '\n' !in after[j]
    requires '\n' !in line
    ensures forall j :: 0 <= j < |before + [line] + after| ==> '\n' !in (before + [line] + after)[j]
  {
  }

  lemma NoNewlineInListingLine(shown: string, v: string)
    requires '\n' !in shown && '\n' !in v
    ensures '\n' !in ListingLine(shown, v)
  {
  }

  /** The line at `j` decides the search when it is the first that parses. */
  lemma FirstMatchDecides(name: string, ls: seq<string>, j: nat)
    requires FirstMatchAt(name, ls, j)
    ensures FindVersion(name, ls) == ParseLine(name, ls[j])
  {
  }

  /** A listing with no line for the package says it is not installed. */
  lemma AbsentFromListing(name: string, ls: seq<string>)
    requires forall j :: 0 <= j < |ls| ==> '\n' !in ls[j] && ParseLine(name, ls[j]).None?
    ensures InstalledVersion(name, Unlines(ls)).None?
  {
    LinesOfUnlines(ls);
  }
}
