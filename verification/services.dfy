/** The repository path the web front end passes to the command line: the
    form's text is stripped, and on Windows a Git Bash drive path `/x/rest`
    becomes `X:/rest`. */
module Services {
  import opened Text
  import Repo

  /** A full match of `^/([a-zA-Z])/(.+)$` on stripped text: a drive letter
      between slashes, then at least one character and no newline (`.` does
      not match one, and stripped text has no trailing newline for `$` to
      skip). */
  predicate MatchesGitBashPath(p: string) {
    && |p| >= 4 && p[0] == '/' && IsAsciiLetter(p[1]) && p[2] == '/'
    && '\n' !in p[3..]
  }

  /** `_normalise_repo_path` of the front end. */
  function NormaliseFormPath(pathStr: string, onWindows: bool): (r: string)
    ensures var p := Strip(pathStr);
      && (!onWindows || !MatchesGitBashPath(p) ==> r == p)
      && (onWindows && MatchesGitBashPath(p) ==>
            && |r| == |p| && 'A' <= r[0] <= 'Z' && EqualsAsciiIgnoringCase(r[0], p[1])
            && r[1..3] == ":/" && r[3..] == p[3..])
  {
    RewriteStripped(Strip(pathStr), onWindows)
  }

  /** The drive rewrite on text already stripped. */
  function RewriteStripped(p: string, onWindows: bool): string {
    if !onWindows then p
    else if MatchesGitBashPath(p) then [UpperChar(p[1])] + ":/" + p[3..]
    else p
  }

  /** Two ASCII letters that differ at most in case. */
  predicate EqualsAsciiIgnoringCase(a: char, b: char) {
    a == b || (a as int) - (b as int) == 'A' as int - 'a' as int || (b as int) - (a as int) == 'A' as int - 'a' as int
  }

  /** Text without whitespace at either end. */
  predicate IsStripped(s: string) {
    s == [] || (!IsSpace(s[0]) && !IsSpace(s[|s| - 1]))
  }

  lemma {:induction false} StripFixed(s: string)
    requires IsStripped(s)
    ensures Strip(s) == s
  {
  }

  /** What the front end hands on never has whitespace at either end. */
  lemma {:induction false} NormalisedIsStripped(pathStr: string, onWindows: bool)
    ensures IsStripped(NormaliseFormPath(pathStr, onWindows))
  {
    var p := Strip(pathStr);
    assert IsStripped(p);
    RewriteKeepsStripped(p, onWindows);
  }

  lemma {:induction false} RewriteKeepsStripped(p: string, onWindows: bool)
    requires IsStripped(p)
    ensures IsStripped(RewriteStripped(p, onWindows))
  {
    var r := RewriteStripped(p, onWindows);
    if onWindows && MatchesGitBashPath(p) {
      assert r[|r| - 1] == p[|p| - 1];
    }
  }

  /** A rewritten path starts with its drive letter and is left alone. */
  lemma {:induction false} RewriteStrippedIdempotent(p: string, onWindows: bool)
    ensures RewriteStripped(RewriteStripped(p, onWindows), onWindows) == RewriteStripped(p, onWindows)
  {
    if onWindows && MatchesGitBashPath(p) {
      assert RewriteStripped(p, onWindows)[0] != '/';
    }
  }

  /** Normalising twice is normalising once. */
  lemma {:induction false} NormaliseFormPathIdempotent(pathStr: string, onWindows: bool)
    ensures var r := NormaliseFormPath(pathStr, onWindows);
      NormaliseFormPath(r, onWindows) == r
  {
    var p := Strip(pathStr);
    assert IsStripped(p);
    var r := RewriteStripped(p, onWindows);
    assert NormaliseFormPath(pathStr, onWindows) == r;
    RewriteKeepsStripped(p, onWindows);
    StripFixed(r);
    RewriteStrippedIdempotent(p, onWindows);
  }

  /** On stripped text without a newline, the front end and the history
      reader rewrite the same paths the same way, except a bare `/x/`. */
  lemma {:induction false} AgreesWithRepoRewrite(p: string)
    requires IsStripped(p) && '\n' !in p
    requires |p| != 3
    ensures NormaliseFormPath(p, true) == Repo.NormaliseRepoPath(p, true)
  {
    StrippedNormalise(p, true);
    if Repo.IsGitBashPath(p) {
      NotInSuffix(p, 3, '\n');
      assert MatchesGitBashPath(p);
    }
  }

  lemma {:induction false} NotInSuffix(s: string, k: nat, c: char)
    requires k <= |s| && c !in s
    ensures c !in s[k..]
  {
    forall i | 0 <= i < |s| - k
      ensures s[k..][i] != c
    {
      assert s[k + i] in s;
    }
  }

  /** A bare drive `/c/` has an empty rest, so the front end leaves it alone
      while the history reader turns it into `C:/`. */
  lemma BareDriveDiffers()
    ensures NormaliseFormPath("/c/", true) == "/c/"
    ensures Repo.NormaliseRepoPath("/c/", true) == "C:/"
  {
    var p := "/c/";
    assert !IsSpace(p[0]) && !IsSpace(p[2]);
    assert Strip(p) == p;
    assert !MatchesGitBashPath(p);
    assert Repo.IsGitBashPath(p);
  }

  /** `/x/rest` becomes `X:/rest` on Windows for any letter and any
      newline-free rest, and stays as it is elsewhere. */
  lemma {:induction false} DriveRewrite(letter: char, rest: string)
    requires IsAsciiLetter(letter) && rest != [] && IsStripped(rest) && '\n' !in rest
    ensures NormaliseFormPath("/" + [letter] + "/" + rest, true) == [UpperChar(letter)] + ":/" + rest
    ensures NormaliseFormPath("/" + [letter] + "/" + rest, false) == "/" + [letter] + "/" + rest
  {
    var p := "/" + [letter] + "/" + rest;
    GitBashShape(letter, rest);
    StrippedNormalise(p, true);
    StrippedNormalise(p, false);
    assert RewriteStripped(p, true) == [UpperChar(p[1])] + ":/" + p[3..];
  }

  lemma {:induction false} GitBashShape(letter: char, rest: string)
    requires IsAsciiLetter(letter) && rest != [] && IsStripped(rest) && '\n' !in rest
    ensures var p := "/" + [letter] + "/" + rest;
      IsStripped(p) && MatchesGitBashPath(p) && p[1] == letter && p[3..] == rest
  {
    var p := "/" + [letter] + "/" + rest;
    assert p[3..] == rest && p[|p| - 1] == rest[|rest| - 1];
  }

  /** On stripped text the front end only applies the drive rewrite. */
  lemma {:induction false} StrippedNormalise(p: string, onWindows: bool)
    requires IsStripped(p)
    ensures NormaliseFormPath(p, onWindows) == RewriteStripped(p, onWindows)
  {
    StripFixed(p);
  }

  /** Whitespace around the text does not change the outcome. */
  lemma {:induction false} SurroundingSpaceIgnored(before: char, p: string, after: char, onWindows: bool)
    requires IsSpace(before) && IsSpace(after)
    requires p != [] && IsStripped(p)
    ensures NormaliseFormPath([before] + p + [after], onWindows) == NormaliseFormPath(p, onWindows)
  {
    StripSurrounding(before, p, after);
    StripFixed(p);
  }

  /** One whitespace character on each side of stripped, non-empty text is
      what `strip()` removes. */
  lemma {:induction false} StripSurrounding(before: char, p: string, after: char)
    requires IsSpace(before) && IsSpace(after)
    requires p != [] && IsStripped(p)
    ensures Strip([before] + p + [after]) == p
  {
    assert [before] + p + [after] == [before] + (p + [after]);
    TrimStartOne(before, p + [after]);
    TrimEndOne(p, after);
  }

  /** One leading whitespace character before text that starts with none. */
  lemma {:induction false} TrimStartOne(before: char, t: string)
    requires IsSpace(before) && t != [] && !IsSpace(t[0])
    ensures TrimStart([before] + t) == t
  {
    assert ([before] + t)[1..] == t;
  }

  /** One trailing whitespace character after text that ends with none. */
  lemma {:induction false} TrimEndOne(p: string, after: char)
    requires IsSpace(after) && p != [] && !IsSpace(p[|p| - 1])
    ensures TrimEnd(p + [after]) == p
  {
    assert (p + [after])[..|p|] == p;
  }
}
