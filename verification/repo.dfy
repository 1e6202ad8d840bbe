/** Reading the commit history: the commit record, the Git Bash path
    rewrite applied before calling git on Windows, and the parser that
    turns `git log` output (nine NUL-separated fields per commit) into
    commit records numbered in log order. */
module Repo {
  import opened Results
  import opened Text
  import opened Chrono
  import opened Decimal

  /** The field separator of the log format (`%x00`). */
  const FieldSep: char := 0 as char

  datatype Commit = Commit(
    hash: string,
    authorDate: DateTime,
    committerDate: DateTime,
    index: int,
    subject: string,
    authorName: string,
    authorEmail: string,
    committerName: string,
    committerEmail: string,
    refs: string)

  datatype GitRepositoryError = GitRepositoryError(message: string)

  /** `datetime.fromisoformat`, which the model takes as given. */
  type IsoParser = string -> Option<DateTime>

  // ---------------------------------------------------------------------
  // Git Bash paths
  // ---------------------------------------------------------------------

  /** `/x/...` with a letter `x`: a drive written the Git Bash way. */
  predicate IsGitBashPath(p: string) {
    |p| >= 3 && p[0] == '/' && IsAsciiLetter(p[1]) && p[2] == '/'
  }

  /** The path rewrite on the text of a path: on Windows, `/x/rest` becomes
      `X:/rest`; anything else, and everything off Windows, is unchanged. */
  function NormaliseRepoPath(p: string, onWindows: bool): (r: string)
    ensures !onWindows || !IsGitBashPath(p) ==> r == p
    ensures onWindows && IsGitBashPath(p) ==>
      && |r| == |p| && r[0] == UpperChar(p[1]) && 'A' <= r[0] <= 'Z'
      && r[1] == ':' && r[2..] == p[2..]
  {
    if !onWindows then p
    else if IsGitBashPath(p) then [UpperChar(p[1])] + ":/" + p[3..]
    else p
  }

  /** Rewriting is idempotent: a rewritten path starts with a drive letter
      and is not rewritten again. */
  lemma NormaliseRepoPathIdempotent(p: string, onWindows: bool)
    ensures NormaliseRepoPath(NormaliseRepoPath(p, onWindows), onWindows) == NormaliseRepoPath(p, onWindows)
  {
    var r := NormaliseRepoPath(p, onWindows);
    if onWindows && IsGitBashPath(p) {
      assert r[0] != '/';
    }
  }

  /** The text of a Windows path object: its separators are backslashes,
      so a forward slash never survives the conversion. */
  function WindowsPathText(p: string): (r: string)
    ensures |r| == |p| && '/' !in r
    ensures forall i :: 0 <= i < |p| ==> r[i] == if p[i] == '/' then '\\' else p[i]
  {
    seq(|p|, i requires 0 <= i < |p| => if p[i] == '/' then '\\' else p[i])
  }

  /** The path rewrite as the loader applies it on Windows: to the text of
      a path object, after the separators have already been converted. */
  function NormaliseWindowsPathAsWritten(path: string): string {
    NormaliseRepoPath(WindowsPathText(path), true)
  }

  /** As written, the rewrite never fires on Windows. */
  lemma AsWrittenNeverRewrites(path: string)
    ensures NormaliseWindowsPathAsWritten(path) == WindowsPathText(path)
  {
    if |path| >= 1 {
      assert WindowsPathText(path)[0] != '/';
    }
  }

  /** The input that shows it: a Git Bash path comes back as `\c\repo`. */
  lemma AsWrittenMissesGitBashPath()
    ensures NormaliseWindowsPathAsWritten("/c/repo") == "\\c\\repo"
  {
    AsWrittenNeverRewrites("/c/repo");
    assert WindowsPathText("/c/repo") == "\\c\\repo";
  }

  /** The rewrite applied to the text as given, before the path object
      converts its separators. */
  function NormaliseWindowsPath(path: string): (r: string)
    ensures IsGitBashPath(path) ==> r == [UpperChar(path[1]), ':'] + WindowsPathText(path[2..])
    ensures !IsGitBashPath(path) ==> r == WindowsPathText(path)
  {
    var p := NormaliseRepoPath(path, true);
    assert IsGitBashPath(path) ==> p == [UpperChar(path[1]), ':'] + path[2..];
    WindowsPathText(p)
  }

  /** Corrected, a Git Bash path ends on its drive letter. */
  lemma CorrectedRewritesGitBashPath()
    ensures NormaliseWindowsPath("/c/repo") == "C:\\repo"
  {
    assert IsGitBashPath("/c/repo");
    assert WindowsPathText("/repo") == "\\repo";
  }

  // ---------------------------------------------------------------------
  // Log lines
  // ---------------------------------------------------------------------

  /** The nine fields of one log line, in format order. */
  datatype LogEntry = LogEntry(
    hash: string,
    authorText: string,
    committerText: string,
    authorName: string,
    authorEmail: string,
    committerName: string,
    committerEmail: string,
    subject: string,
    refs: string)

  function EntryFields(e: LogEntry): (r: seq<string>)
    ensures |r| == 9
  {
    [e.hash, e.authorText, e.committerText, e.authorName, e.authorEmail,
     e.committerName, e.committerEmail, e.subject, e.refs]
  }

  /** How git prints one commit with the format string. */
  function EntryLine(e: LogEntry): string {
    JoinWith(EntryFields(e), FieldSep)
  }

  /** How git prints the whole history: one line per commit. */
  function RenderLog(es: seq<LogEntry>): string {
    if es == [] then [] else JoinWith(seq(|es|, i requires 0 <= i < |es| => EntryLine(es[i])), '\n')
  }

  /** A field git can print without breaking the line structure. */
  predicate CleanField(s: string) {
    '\n' !in s && FieldSep !in s
  }

  predicate CleanEntry(e: LogEntry) {
    forall i :: 0 <= i < 9 ==> CleanField(EntryFields(e)[i])
  }

  /** The commit a clean entry stands for when both dates parse. */
  function EntryCommit(e: LogEntry, index: int, parseIso: IsoParser): Commit
    requires parseIso(e.authorText).Some? && parseIso(e.committerText).Some?
  {
    Commit(e.hash, parseIso(e.authorText).value, parseIso(e.committerText).value, index,
           e.subject, e.authorName, e.authorEmail, e.committerName, e.committerEmail, Strip(e.refs))
  }

  /** One line of the log: nine NUL-separated fields, both dates parsable;
      `refs` is whitespace-stripped and everything else kept verbatim. */
  function ParseLine(index: int, line: string, parseIso: IsoParser): (r: Result<Commit, GitRepositoryError>)
    ensures |SplitOn(line, FieldSep)| != 9 ==> r.Err?
    ensures r.Ok? ==> r.value.index == index
    ensures r.Ok? ==> var parts := SplitOn(line, FieldSep);
      && parseIso(parts[1]) == Some(r.value.authorDate)
      && parseIso(parts[2]) == Some(r.value.committerDate)
      && r.value.refs == Strip(parts[8])
  {
    var parts := SplitOn(line, FieldSep);
    if |parts| != 9 then
      Err(GitRepositoryError("Malformed git log line: " + line))
    else
      match (parseIso(parts[1]), parseIso(parts[2]))
      case (Some(authorDate), Some(committerDate)) =>
        Ok(Commit(parts[0], authorDate, committerDate, index, parts[7],
                  parts[3], parts[4], parts[5], parts[6], Strip(parts[8])))
      case _ =>
        Err(GitRepositoryError("Invalid timestamp format in git log: " + line))
  }

  /** A printed entry parses back to the commit it stands for. */
  lemma ParseEntryLine(e: LogEntry, index: int, parseIso: IsoParser)
    requires CleanEntry(e)
    requires parseIso(e.authorText).Some? && parseIso(e.committerText).Some?
    ensures ParseLine(index, EntryLine(e), parseIso) == Ok(EntryCommit(e, index, parseIso))
  {
    var fields := EntryFields(e);
    assert forall i :: 0 <= i < 9 ==> FieldSep !in fields[i];
    SplitJoin(fields, FieldSep);
  }

  /** Applies `step` to `lines[from..]` in order, giving each line its
      position; the first line that fails decides the error. */
  function ParseLines<T, E>(lines: seq<string>, from: nat, step: (int, string) -> Result<T, E>): (r: Result<seq<T>, E>)
    requires from <= |lines|
    ensures r.Ok? <==> forall i :: from <= i < |lines| ==> step(i, lines[i]).Ok?
    ensures r.Ok? ==> |r.value| == |lines| - from
    ensures r.Ok? ==> forall i :: from <= i < |lines| ==> step(i, lines[i]) == Ok(r.value[i - from])
    decreases |lines| - from
  {
    if from == |lines| then Ok([])
    else
      var head := step(from, lines[from]);
      var tail := ParseLines(lines, from + 1, step);
      if head.Err? then Err(head.error)
      else if tail.Err? then Err(tail.error)
      else Ok([head.value] + tail.value)
  }

  function LineParser(parseIso: IsoParser): (int, string) -> Result<Commit, GitRepositoryError> {
    (i: int, line: string) => ParseLine(i, line, parseIso)
  }

  /** The loop over the log as written: an empty log is no commits,
      otherwise the log is cut with `str.splitlines`. */
  function ParseCommitLogAsWritten(raw: string, parseIso: IsoParser): (r: Result<seq<Commit>, GitRepositoryError>)
    ensures raw == [] ==> r == Ok([])
    ensures r.Ok? ==> |r.value| == |SplitLines(raw)|
    ensures r.Ok? ==> forall i :: 0 <= i < |r.value| ==> r.value[i].index == i
    ensures raw != [] ==> (r.Ok? <==>
      forall i :: 0 <= i < |SplitLines(raw)| ==> ParseLine(i, SplitLines(raw)[i], parseIso).Ok?)
    ensures r.Ok? ==> forall i :: 0 <= i < |SplitLines(raw)| ==>
      ParseLine(i, SplitLines(raw)[i], parseIso) == Ok(r.value[i])
  {
    if raw == [] then Ok([]) else ParseEachLine(SplitLines(raw), parseIso)
  }

  /** Every line parsed at its own position, in order. */
  function ParseEachLine(lines: seq<string>, parseIso: IsoParser): (r: Result<seq<Commit>, GitRepositoryError>)
    ensures r.Ok? <==> forall i :: 0 <= i < |lines| ==> ParseLine(i, lines[i], parseIso).Ok?
    ensures r.Ok? ==> |r.value| == |lines|
    ensures r.Ok? ==> forall i :: 0 <= i < |lines| ==>
      ParseLine(i, lines[i], parseIso) == Ok(r.value[i]) && r.value[i].index == i
  {
    ParseLinesIndices(lines, parseIso);
    ParseLines(lines, 0, LineParser(parseIso))
  }

  /** The input that shows the difference: a subject holding a form feed,
      which git prints verbatim, cuts its line in two. */
  lemma AsWrittenRejectsFormFeedSubject(parseIso: IsoParser)
    ensures ParseCommitLogAsWritten(FormFeedLog(), parseIso).Err?
  {
    var head := FormFeedHead();
    var pieces := FormFeedFront() + [[]];
    FrontPrintable();
    forall k | 0 <= k < |pieces|
      ensures FieldSep !in pieces[k]
      ensures forall j :: 0 <= j < |pieces[k]| ==> !IsLineBreak(pieces[k][j])
    {
      if k < 7 {
        PrintableField(pieces[k]);
      }
    }
    JoinNoLineBreak(pieces, FieldSep);
    LinesFromBreak(head, '\U{000C}', [FieldSep]);
    SplitLinesSingle([FieldSep]);
    assert SplitLines(FormFeedLog()) == [head, [FieldSep]] by {
      assert FormFeedLog() == head + ['\U{000C}'] + [FieldSep];
    }
    SplitJoin(pieces, FieldSep);
    assert LineParser(parseIso)(0, head).Err?;
  }

  /** Printable ASCII text: no line boundary and no NUL. */
  predicate Printable(s: string) {
    forall j :: 0 <= j < |s| ==> ' ' <= s[j] <= '~'
  }

  lemma PrintableField(s: string)
    requires Printable(s)
    ensures CleanField(s) && forall j :: 0 <= j < |s| ==> !IsLineBreak(s[j])
  {
  }

  /** A date as git's `%aI` and `%cI` print it: strict ISO 8601. */
  const SampleIsoDate: string := "2024-01-01T09:00:00+00:00"

  /** One commit with real dates whose subject is a single form feed. */
  function FormFeedEntry(): LogEntry {
    LogEntry("c0ffee", SampleIsoDate, SampleIsoDate, "Ann", "ann@example.com",
             "Ann", "ann@example.com", "\U{000C}", "")
  }

  /** The seven fields before the subject. */
  function FormFeedFront(): (r: seq<string>)
    ensures |r| == 7 && EntryFields(FormFeedEntry()) == r + [['\U{000C}'], []]
  {
    ["c0ffee", SampleIsoDate, SampleIsoDate, "Ann", "ann@example.com", "Ann", "ann@example.com"]
  }

  lemma FrontPrintable()
    ensures forall k :: 0 <= k < 7 ==> Printable(FormFeedFront()[k])
  {
    SamplePrintable();
    assert Printable("c0ffee");
    assert Printable("Ann");
    assert Printable("ann@example.com");
  }

  lemma SamplePrintable()
    ensures Printable(SampleIsoDate)
  {
  }

  /** What `splitlines()` takes for the first line: the seven fields before
      the subject and the separator after them. */
  function FormFeedHead(): string {
    JoinWith(FormFeedFront() + [[]], FieldSep)
  }

  /** The log git prints for that commit: the head, the form feed, and the
      separator before the empty `refs` field. */
  function FormFeedLog(): (s: string)
    ensures s == FormFeedHead() + ['\U{000C}', FieldSep]
  {
    var front := FormFeedFront();
    JoinAppend(front, [['\U{000C}'], []], FieldSep);
    JoinAppend(front, [[]], FieldSep);
    assert JoinWith([['\U{000C}'], []], FieldSep) == ['\U{000C}', FieldSep] by {
      assert [['\U{000C}'], []][1..] == [[]];
    }
    RenderLog([FormFeedEntry()])
  }

  /** The same history is read correctly once only `\n` ends a line. */
  lemma CorrectedAcceptsFormFeedSubject(parseIso: IsoParser)
    requires parseIso(SampleIsoDate).Some?
    ensures ParseCommitLog(FormFeedLog(), parseIso).Ok?
    ensures |ParseCommitLog(FormFeedLog(), parseIso).value| == 1
    ensures ParseCommitLog(FormFeedLog(), parseIso).value[0].subject == "\U{000C}"
  {
    var e := FormFeedEntry();
    var fields := EntryFields(e);
    FrontPrintable();
    forall k | 0 <= k < 9 ensures CleanField(fields[k]) {
      if k < 7 {
        assert fields[k] == FormFeedFront()[k];
        PrintableField(fields[k]);
      }
    }
    LogRoundTrip([e], parseIso);
  }

  /** The log parser: an empty log is no commits; otherwise every `\n`
      separated line is one commit, numbered from 0 in log order. */
  function ParseCommitLog(raw: string, parseIso: IsoParser): (r: Result<seq<Commit>, GitRepositoryError>)
    ensures raw == [] ==> r == Ok([])
    ensures r.Ok? && raw != [] ==> |r.value| == |SplitOn(raw, '\n')|
    ensures r.Ok? ==> forall i :: 0 <= i < |r.value| ==> r.value[i].index == i
  {
    if raw == [] then Ok([])
    else ParseEachLine(SplitOn(raw, '\n'), parseIso)
  }

  /** A non-empty log parses iff each of its `\n`-separated lines parses at
      its own position, and then the i-th commit is the i-th line's. */
  lemma ParseCommitLogByLine(raw: string, parseIso: IsoParser) returns (lines: seq<string>, r: Result<seq<Commit>, GitRepositoryError>)
    requires raw != []
    ensures lines == SplitOn(raw, '\n') && r == ParseCommitLog(raw, parseIso)
    ensures r.Ok? <==> forall i :: 0 <= i < |lines| ==> ParseLine(i, lines[i], parseIso).Ok?
    ensures r.Ok? ==> |r.value| == |lines| && forall i :: 0 <= i < |lines| ==> ParseLine(i, lines[i], parseIso) == Ok(r.value[i])
  {
    lines := SplitOn(raw, '\n');
    r := ParseCommitLog(raw, parseIso);
    assert r == ParseEachLine(lines, parseIso);
    EachLineParsed(lines, parseIso, r);
  }

  /** `ParseEachLine`'s contract, for a result already computed. */
  lemma EachLineParsed(lines: seq<string>, parseIso: IsoParser, r: Result<seq<Commit>, GitRepositoryError>)
    requires r == ParseEachLine(lines, parseIso)
    ensures r.Ok? <==> forall i :: 0 <= i < |lines| ==> ParseLine(i, lines[i], parseIso).Ok?
    ensures r.Ok? ==> |r.value| == |lines| && forall i :: 0 <= i < |lines| ==> ParseLine(i, lines[i], parseIso) == Ok(r.value[i])
  {
  }

  /** One line that fails to parse makes the whole log fail. */
  lemma BadLineFailsLog(raw: string, parseIso: IsoParser, i: nat)
    requires raw != [] && i < |SplitOn(raw, '\n')|
    requires ParseLine(i, SplitOn(raw, '\n')[i], parseIso).Err?
    ensures ParseCommitLog(raw, parseIso).Err?
  {
    var lines := SplitOn(raw, '\n');
    assert LineParser(parseIso)(i, lines[i]).Err?;
  }

  /** Parsing lines in order succeeds iff every line parses at its own
      position, and then the i-th commit is that line's, carrying index i. */
  lemma ParseLinesIndices(lines: seq<string>, parseIso: IsoParser)
    ensures var r := ParseLines(lines, 0, LineParser(parseIso));
      && (r.Ok? <==> forall i :: 0 <= i < |lines| ==> ParseLine(i, lines[i], parseIso).Ok?)
      && (r.Ok? ==> |r.value| == |lines| && forall i :: 0 <= i < |lines| ==>
            ParseLine(i, lines[i], parseIso) == Ok(r.value[i]) && r.value[i].index == i)
  {
    var r := ParseLines(lines, 0, LineParser(parseIso));
    forall i | 0 <= i < |lines|
      ensures LineParser(parseIso)(i, lines[i]) == ParseLine(i, lines[i], parseIso)
    {
    }
  }

  lemma {:induction false} JoinWithLength(parts: seq<string>, sep: char)
    requires |parts| >= 1
    ensures |JoinWith(parts, sep)| >= |parts| - 1
  {
    if |parts| > 1 {
      JoinWithLength(parts[1..], sep);
    }
  }

  /** Printing a history of clean entries and parsing it back gives one
      commit per entry, in order, numbered from 0. */
  lemma LogRoundTrip(es: seq<LogEntry>, parseIso: IsoParser)
    requires forall i :: 0 <= i < |es| ==> CleanEntry(es[i])
    requires forall i :: 0 <= i < |es| ==>
      parseIso(es[i].authorText).Some? && parseIso(es[i].committerText).Some?
    ensures ParseCommitLog(RenderLog(es), parseIso).Ok?
    ensures |ParseCommitLog(RenderLog(es), parseIso).value| == |es|
    ensures forall i :: 0 <= i < |es| ==>
      ParseCommitLog(RenderLog(es), parseIso).value[i] == EntryCommit(es[i], i, parseIso)
  {
    if es != [] {
      var lines := seq(|es|, i requires 0 <= i < |es| => EntryLine(es[i]));
      forall i | 0 <= i < |es|
        ensures '\n' !in lines[i]
        ensures ParseLine(i, lines[i], parseIso) == Ok(EntryCommit(es[i], i, parseIso))
      {
        var fields := EntryFields(es[i]);
        assert forall k :: 0 <= k < 9 ==> '\n' !in fields[k];
        JoinNoNewline(fields);
        ParseEntryLine(es[i], i, parseIso);
      }
      SplitJoin(lines, '\n');
      JoinWithLength(EntryFields(es[0]), FieldSep);
      JoinWithLength(lines, '\n');
      assert RenderLog(es) != [] by {
        JoinPrefix(lines, '\n');
      }
    }
  }

  /** Joining newline-free pieces with NUL gives a newline-free line. */
  lemma {:induction false} JoinNoNewline(parts: seq<string>)
    requires |parts| >= 1
    requires forall k :: 0 <= k < |parts| ==> '\n' !in parts[k]
    ensures '\n' !in JoinWith(parts, FieldSep)
  {
    if |parts| > 1 {
      JoinNoNewline(parts[1..]);
    }
  }

  /** A join begins with its first piece. */
  lemma JoinPrefix(parts: seq<string>, sep: char)
    requires |parts| >= 1
    ensures |JoinWith(parts, sep)| >= |parts[0]|
  {
  }

  /** The first commit, from position `from`, whose hash the date map lacks. */
  function FirstUndated(commits: seq<Commit>, dates: map<string, DateTime>, from: nat): (r: Option<nat>)
    requires from <= |commits|
    ensures r.None? <==> forall i :: from <= i < |commits| ==> commits[i].hash in dates
    ensures r.Some? ==> from <= r.value < |commits| && commits[r.value].hash !in dates
    ensures r.Some? ==> forall i :: from <= i < r.value ==> commits[i].hash in dates
    decreases |commits| - from
  {
    if from == |commits| then None
    else if commits[from].hash !in dates then Some(from)
    else FirstUndated(commits, dates, from + 1)
  }
}
