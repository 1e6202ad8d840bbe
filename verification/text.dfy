/** Character classes and string helpers with Python's `str` semantics:
    `strip()`, `split(sep)`, `splitlines()`, and ASCII case mapping. */
module Text {

  /** The characters for which Python's `str.isspace()` holds. */
  predicate IsSpace(c: char) {
    var k := c as int;
    || (0x09 <= k <= 0x0D) || (0x1C <= k <= 0x20)
    || k == 0x85 || k == 0xA0 || k == 0x1680
    || (0x2000 <= k <= 0x200A)
    || k == 0x2028 || k == 0x2029 || k == 0x202F || k == 0x205F || k == 0x3000
  }

  /** The line boundaries recognised by Python's `str.splitlines()`. */
  predicate IsLineBreak(c: char) {
    var k := c as int;
    || (0x0A <= k <= 0x0D) || (0x1C <= k <= 0x1E)
    || k == 0x85 || k == 0x2028 || k == 0x2029
  }

  predicate IsAsciiDigit(c: char) {
    '0' <= c <= '9'
  }

  predicate IsAsciiLetter(c: char) {
    ('a' <= c <= 'z') || ('A' <= c <= 'Z')
  }

  function UpperChar(c: char): (u: char)
    ensures 'a' <= c <= 'z' ==> 'A' <= u <= 'Z' && u as int - c as int == 'A' as int - 'a' as int
    ensures !('a' <= c <= 'z') ==> u == c
  {
    if 'a' <= c <= 'z' then (c as int - 'a' as int + 'A' as int) as char else c
  }

  function LowerChar(c: char): (l: char)
    ensures 'A' <= c <= 'Z' ==> 'a' <= l <= 'z' && l as int - c as int == 'a' as int - 'A' as int
    ensures !('A' <= c <= 'Z') ==> l == c
  {
    if 'A' <= c <= 'Z' then (c as int - 'A' as int + 'a' as int) as char else c
  }

  /** `str.upper()` restricted to ASCII letters. */
  function AsciiUpper(s: string): (r: string)
    ensures |r| == |s|
    ensures forall i :: 0 <= i < |s| ==> r[i] == UpperChar(s[i])
  {
    seq(|s|, i requires 0 <= i < |s| => UpperChar(s[i]))
  }

  /** `str.lower()` restricted to ASCII letters. */
  function AsciiLower(s: string): (r: string)
    ensures |r| == |s|
    ensures forall i :: 0 <= i < |s| ==> r[i] == LowerChar(s[i])
  {
    seq(|s|, i requires 0 <= i < |s| => LowerChar(s[i]))
  }

  /** `str.lstrip()`: drops the leading whitespace, and only that. */
  function TrimStart(s: string): (r: string)
    ensures LeadTrimmed(s, r)
  {
    if s != [] && IsSpace(s[0]) then TrimStart(s[1..]) else s
  }

  /** `str.rstrip()`: drops the trailing whitespace, and only that. */
  function TrimEnd(s: string): (r: string)
    ensures TailTrimmed(s, r)
  {
    if s != [] && IsSpace(s[|s| - 1]) then TrimEnd(s[..|s| - 1]) else s
  }

  /** `str.strip()`: the longest infix of `s` without whitespace at either end,
      obtained by removing whitespace only. */
  function Strip(s: string): (r: string)
    ensures r == [] || (!IsSpace(r[0]) && !IsSpace(r[|r| - 1]))
    ensures (forall i :: 0 <= i < |s| ==> IsSpace(s[i])) <==> r == []
    ensures s == [] || (!IsSpace(s[0]) && !IsSpace(s[|s| - 1])) ==> r == s
    ensures LeadingSpaces(s) + |r| <= |s| && r == s[LeadingSpaces(s)..LeadingSpaces(s) + |r|]
    ensures forall i :: 0 <= i < LeadingSpaces(s) ==> IsSpace(s[i])
    ensures forall i :: LeadingSpaces(s) + |r| <= i < |s| ==> IsSpace(s[i])
  {
    StrippedFacts(s);
    Stripped(s)
  }

  /** Both trims, `rstrip()` after `lstrip()`. */
  function Stripped(s: string): string {
    TrimEnd(TrimStart(s))
  }

  /** Everything `Strip` promises, for the two trims in a row. */
  lemma StrippedFacts(s: string)
    ensures var r := Stripped(s);
      && (r == [] || (!IsSpace(r[0]) && !IsSpace(r[|r| - 1])))
      && ((forall i :: 0 <= i < |s| ==> IsSpace(s[i])) <==> r == [])
      && (s == [] || (!IsSpace(s[0]) && !IsSpace(s[|s| - 1])) ==> r == s)
      && LeadingSpaces(s) + |r| <= |s| && r == s[LeadingSpaces(s)..LeadingSpaces(s) + |r|]
      && (forall i :: 0 <= i < LeadingSpaces(s) ==> IsSpace(s[i]))
      && (forall i :: LeadingSpaces(s) + |r| <= i < |s| ==> IsSpace(s[i]))
  {
    var t := TrimStart(s);
    var r := TrimEnd(t);
    TrimmedInfix(s, t, r, LeadingSpaces(s));
    TrimmedBlank(s, t, r);
    TrimmedUnpadded(s, t, r);
  }

  /** How many spaces `lstrip()` drops. */
  function LeadingSpaces(s: string): nat {
    |s| - |TrimStart(s)|
  }

  /** What `TrimStart` leaves: a suffix that starts with no space, after
      spaces only. */
  predicate LeadTrimmed(s: string, t: string) {
    && |t| <= |s| && t == s[|s| - |t|..]
    && (t == [] || !IsSpace(t[0]))
    && forall i :: 0 <= i < |s| - |t| ==> IsSpace(s[i])
  }

  /** What `TrimEnd` leaves: a prefix that ends with no space, before spaces
      only. */
  predicate TailTrimmed(t: string, r: string) {
    && |r| <= |t| && r == t[..|r|]
    && (r == [] || !IsSpace(r[|r| - 1]))
    && forall i :: |r| <= i < |t| ==> IsSpace(t[i])
  }

  /** The trimmed text is the infix after the leading spaces, with spaces
      only after it, and has no space at either end. */
  lemma TrimmedInfix(s: string, t: string, r: string, k: nat)
    requires LeadTrimmed(s, t) && TailTrimmed(t, r) && k == |s| - |t|
    ensures k + |r| <= |s| && r == s[k..k + |r|]
    ensures forall i :: 0 <= i < k ==> IsSpace(s[i])
    ensures forall i :: k + |r| <= i < |s| ==> IsSpace(s[i])
    ensures r == [] || (!IsSpace(r[0]) && !IsSpace(r[|r| - 1]))
  {
    forall i | 0 <= i < |r| ensures r[i] == s[k + i] {
      assert r[i] == t[i] == s[k..][i];
    }
    forall i | k + |r| <= i < |s| ensures IsSpace(s[i]) {
      assert s[i] == s[k..][i - k] == t[i - k];
    }
  }

  /** Nothing is left exactly when every character is a space. */
  lemma TrimmedBlank(s: string, t: string, r: string)
    requires LeadTrimmed(s, t) && TailTrimmed(t, r)
    ensures (forall i :: 0 <= i < |s| ==> IsSpace(s[i])) <==> r == []
  {
    var k := |s| - |t|;
    if r != [] {
      assert r[0] == t[0] == s[k..][0] == s[k];
    }
  }

  /** Text with no space at either end is left whole. */
  lemma TrimmedUnpadded(s: string, t: string, r: string)
    requires LeadTrimmed(s, t) && TailTrimmed(t, r)
    ensures s == [] || (!IsSpace(s[0]) && !IsSpace(s[|s| - 1])) ==> r == s
  {
    if s != [] && !IsSpace(s[0]) && !IsSpace(s[|s| - 1]) {
      assert |t| == |s|;
      assert t == s;
    }
  }

  /** Joins non-empty `parts` with `sep` between neighbours. */
  function JoinWith(parts: seq<string>, sep: char): string
    requires |parts| >= 1
  {
    if |parts| == 1 then parts[0] else parts[0] + [sep] + JoinWith(parts[1..], sep)
  }

  /** `s.split(sep)` for a one-character separator: never empty, no piece
      contains `sep`, and joining the pieces back with `sep` gives `s`. */
  function SplitOn(s: string, sep: char): (r: seq<string>)
    ensures |r| >= 1
    ensures forall i :: 0 <= i < |r| ==> sep !in r[i]
    ensures JoinWith(r, sep) == s
  {
    if s == [] then [[]]
    else if s[0] == sep then
      var rest := SplitOn(s[1..], sep);
      assert [] + [sep] + JoinWith(rest, sep) == s;
      [[]] + rest
    else
      var rest := SplitOn(s[1..], sep);
      var r := [[s[0]] + rest[0]] + rest[1..];
      assert r[1..] == rest[1..];
      JoinHead(rest, sep, s[0]);
      r
  }

  lemma JoinHead(parts: seq<string>, sep: char, c: char)
    requires |parts| >= 1
    ensures JoinWith([[c] + parts[0]] + parts[1..], sep) == [c] + JoinWith(parts, sep)
  {
    var q := [[c] + parts[0]] + parts[1..];
    if |parts| > 1 {
      assert q[1..] == parts[1..];
    }
  }

  /** Joining two runs of pieces puts one separator between their joins. */
  lemma {:induction false} JoinAppend(a: seq<string>, b: seq<string>, sep: char)
    requires |a| >= 1 && |b| >= 1
    ensures JoinWith(a + b, sep) == JoinWith(a, sep) + [sep] + JoinWith(b, sep)
  {
    var ab := a + b;
    if |a| == 1 {
      assert ab[1..] == b;
    } else {
      assert ab[1..] == a[1..] + b;
      JoinAppend(a[1..], b, sep);
    }
  }

  /** Pieces free of line boundaries, joined by a separator that is not
      one, give text free of line boundaries. */
  lemma {:induction false} JoinNoLineBreak(parts: seq<string>, sep: char)
    requires |parts| >= 1 && !IsLineBreak(sep)
    requires forall k, j :: 0 <= k < |parts| && 0 <= j < |parts[k]| ==> !IsLineBreak(parts[k][j])
    ensures forall j :: 0 <= j < |JoinWith(parts, sep)| ==> !IsLineBreak(JoinWith(parts, sep)[j])
  {
    if |parts| > 1 {
      JoinNoLineBreak(parts[1..], sep);
      var rest := JoinWith(parts[1..], sep);
      var s := parts[0] + [sep] + rest;
      forall j | 0 <= j < |s| ensures !IsLineBreak(s[j]) {
        if j < |parts[0]| {
          assert s[j] == parts[0][j];
        } else if j > |parts[0]| {
          assert s[j] == rest[j - |parts[0]| - 1];
        }
      }
    }
  }

  /** Splitting the join of separator-free pieces gives the pieces back. */
  lemma {:induction false} SplitJoin(parts: seq<string>, sep: char)
    requires |parts| >= 1
    requires forall i :: 0 <= i < |parts| ==> sep !in parts[i]
    ensures SplitOn(JoinWith(parts, sep), sep) == parts
  {
    var s := JoinWith(parts, sep);
    var r := SplitOn(s, sep);
    SplitInjective(r, parts, sep);
  }

  /** Two separator-free piece lists with the same join are equal. */
  lemma {:induction false} SplitInjective(a: seq<string>, b: seq<string>, sep: char)
    requires |a| >= 1 && |b| >= 1
    requires forall i :: 0 <= i < |a| ==> sep !in a[i]
    requires forall i :: 0 <= i < |b| ==> sep !in b[i]
    requires JoinWith(a, sep) == JoinWith(b, sep)
    ensures a == b
    decreases |JoinWith(a, sep)|
  {
    var s := JoinWith(a, sep);
    JoinHasSep(a, sep);
    JoinHasSep(b, sep);
    if |a| == 1 {
      assert |b| == 1;
    } else {
      var ta := JoinWith(a[1..], sep);
      var tb := JoinWith(b[1..], sep);
      assert s == a[0] + [sep] + ta;
      assert s == b[0] + [sep] + tb;
      FirstSep(a[0], ta, sep);
      FirstSep(b[0], tb, sep);
      assert a[0] == s[..|a[0]|];
      assert b[0] == s[..|b[0]|];
      assert ta == s[|a[0]| + 1..];
      assert tb == s[|b[0]| + 1..];
      forall i | 0 <= i < |a[1..]| ensures sep !in a[1..][i] { assert a[1..][i] == a[i + 1]; }
      forall i | 0 <= i < |b[1..]| ensures sep !in b[1..][i] { assert b[1..][i] == b[i + 1]; }
      SplitInjective(a[1..], b[1..], sep);
      assert a == [a[0]] + a[1..];
      assert b == [b[0]] + b[1..];
    }
  }

  /** The join of separator-free pieces contains the separator exactly when
      there is more than one piece. */
  lemma JoinHasSep(parts: seq<string>, sep: char)
    requires |parts| >= 1
    requires forall i :: 0 <= i < |parts| ==> sep !in parts[i]
    ensures sep in JoinWith(parts, sep) <==> |parts| > 1
  {
    if |parts| > 1 {
      var s := JoinWith(parts, sep);
      assert s[|parts[0]|] == sep;
    }
  }

  /** The position of the first `sep` in `s`. */
  function FirstIndexOf(s: string, sep: char): (k: nat)
    requires sep in s
    ensures k < |s| && s[k] == sep
    ensures forall i :: 0 <= i < k ==> s[i] != sep
  {
    if s[0] == sep then 0 else 1 + FirstIndexOf(s[1..], sep)
  }

  lemma {:induction false} FirstSep(x: string, tx: string, sep: char)
    requires sep !in x
    ensures sep in x + [sep] + tx
    ensures FirstIndexOf(x + [sep] + tx, sep) == |x|
  {
    var s := x + [sep] + tx;
    assert s[|x|] == sep;
    if x != [] {
      assert s[1..] == x[1..] + [sep] + tx;
      FirstSep(x[1..], tx, sep);
    }
  }

  /** `s.splitlines()`: the lines of `s` without their terminators; `\r\n`
      counts as one terminator and a final terminator opens no extra line. */
  function SplitLines(s: string): (r: seq<string>)
    ensures s == [] <==> r == []
    ensures forall i, j :: 0 <= i < |r| && 0 <= j < |r[i]| ==> !IsLineBreak(r[i][j])
  {
    LinesFrom(s, [])
  }

  function LinesFrom(s: string, line: string): (r: seq<string>)
    requires forall j :: 0 <= j < |line| ==> !IsLineBreak(line[j])
    ensures (s == [] && line == []) <==> r == []
    ensures forall i, j :: 0 <= i < |r| && 0 <= j < |r[i]| ==> !IsLineBreak(r[i][j])
    decreases |s|
  {
    if s == [] then
      (if line == [] then [] else [line])
    else if s[0] == '\r' && |s| >= 2 && s[1] == '\n' then
      [line] + LinesFrom(s[2..], [])
    else if IsLineBreak(s[0]) then
      [line] + LinesFrom(s[1..], [])
    else
      LinesFrom(s[1..], line + [s[0]])
  }

  /** A string free of line boundaries is a single line. */
  lemma SplitLinesSingle(s: string)
    requires s != []
    requires forall j :: 0 <= j < |s| ==> !IsLineBreak(s[j])
    ensures SplitLines(s) == [s]
  {
    LinesFromPlain(s, []);
    assert [] + s == s;
  }

  lemma {:induction false} LinesFromPlain(s: string, line: string)
    requires forall j :: 0 <= j < |line| ==> !IsLineBreak(line[j])
    requires forall j :: 0 <= j < |s| ==> !IsLineBreak(s[j])
    requires line + s != []
    ensures LinesFrom(s, line) == [line + s]
    decreases |s|
  {
    if s == [] {
      assert line + s == line;
    } else {
      assert !IsLineBreak(s[0]);
      assert s[0] != '\r';
      LinesFromPlain(s[1..], line + [s[0]]);
      assert line + [s[0]] + s[1..] == line + s;
    }
  }

  /** A line boundary other than `\r` ends the current line and starts a new one. */
  lemma LinesFromBreak(p: string, b: char, rest: string)
    requires forall j :: 0 <= j < |p| ==> !IsLineBreak(p[j])
    requires IsLineBreak(b) && b != '\r'
    ensures LinesFrom(p + [b] + rest, []) == [p] + LinesFrom(rest, [])
  {
    LinesFromPrefix(p, [], b, rest);
    assert [] + p == p;
  }

  lemma {:induction false} LinesFromPrefix(p: string, line: string, b: char, rest: string)
    requires forall j :: 0 <= j < |line| ==> !IsLineBreak(line[j])
    requires forall j :: 0 <= j < |p| ==> !IsLineBreak(p[j])
    requires IsLineBreak(b) && b != '\r'
    ensures LinesFrom(p + [b] + rest, line) == [line + p] + LinesFrom(rest, [])
    decreases |p|
  {
    var s := p + [b] + rest;
    if p == [] {
      assert s == [b] + rest;
      assert s[1..] == rest;
      assert line + p == line;
    } else {
      assert s[0] == p[0] && !IsLineBreak(s[0]);
      assert s[1..] == p[1..] + [b] + rest;
      LinesFromPrefix(p[1..], line + [p[0]], b, rest);
      assert line + [p[0]] + p[1..] == line + p;
    }
  }
}
