/** The dry-run report: one entry per selected commit with its old and new
    dates, sorted by position in history, and the plain-text table that
    shows them. */
module DryRun {
  import opened Results
  import opened Text
  import opened Decimal
  import opened Chrono
  import opened Repo
  import Engine
  import Scope

  datatype DryRunEntry = DryRunEntry(
    index: int,
    hashPrefix: string,
    authorDate: DateTime,
    committerDate: DateTime,
    finalTimestamp: DateTime,
    changed: bool)

  /** `ValueError` for a bad prefix length, `KeyError` for a commit the
      timestamp map does not know. */
  datatype DryRunFailure = ValueError(message: string) | KeyError(key: string)

  // ---------------------------------------------------------------------
  // Stable sort by index
  // ---------------------------------------------------------------------

  predicate SortedByIndex(s: seq<DryRunEntry>) {
    forall i, j :: 0 <= i < j < |s| ==> s[i].index <= s[j].index
  }

  /** The entries of `s` whose index is `k`, in their order in `s`. */
  function WithIndex(s: seq<DryRunEntry>, k: int): seq<DryRunEntry> {
    if s == [] then []
    else (if s[0].index == k then [s[0]] else []) + WithIndex(s[1..], k)
  }

  lemma {:induction false} WithIndexAppend(a: seq<DryRunEntry>, b: seq<DryRunEntry>, k: int)
    ensures WithIndex(a + b, k) == WithIndex(a, k) + WithIndex(b, k)
  {
    if a == [] {
      assert a + b == b;
    } else {
      var head := if a[0].index == k then [a[0]] else [];
      assert (a + b)[0] == a[0] && (a + b)[1..] == a[1..] + b;
      assert WithIndex(a + b, k) == head + WithIndex(a[1..] + b, k);
      WithIndexAppend(a[1..], b, k);
      assert WithIndex(a, k) == head + WithIndex(a[1..], k);
    }
  }

  lemma {:induction false} WithIndexNone(s: seq<DryRunEntry>, k: int)
    requires forall i :: 0 <= i < |s| ==> s[i].index != k
    ensures WithIndex(s, k) == []
  {
    if s != [] {
      WithIndexNone(s[1..], k);
    }
  }

  /** How many leading entries of a sorted sequence have index at most `k`. */
  function InsertPosition(sorted: seq<DryRunEntry>, k: int): (p: nat)
    ensures p <= |sorted|
    ensures SortedByIndex(sorted) ==>
      (forall i :: 0 <= i < p ==> sorted[i].index <= k) && (forall i :: p <= i < |sorted| ==> sorted[i].index > k)
  {
    if sorted == [] || sorted[0].index > k then 0
    else 1 + InsertPosition(sorted[1..], k)
  }

  /** Puts `e` after every entry whose index is not larger than its own. */
  function Insert(sorted: seq<DryRunEntry>, e: DryRunEntry): (r: seq<DryRunEntry>)
    requires SortedByIndex(sorted)
    ensures SortedByIndex(r)
    ensures multiset(r) == multiset(sorted) + multiset{e}
  {
    var p := InsertPosition(sorted, e.index);
    var r := sorted[..p] + [e] + sorted[p..];
    assert sorted == sorted[..p] + sorted[p..];
    InsertSorted(sorted, e, p);
    r
  }

  lemma {:induction false} InsertSorted(sorted: seq<DryRunEntry>, e: DryRunEntry, p: nat)
    requires SortedByIndex(sorted) && p <= |sorted|
    requires forall i :: 0 <= i < p ==> sorted[i].index <= e.index
    requires forall i :: p <= i < |sorted| ==> sorted[i].index > e.index
    ensures SortedByIndex(sorted[..p] + [e] + sorted[p..])
  {
    var r := sorted[..p] + [e] + sorted[p..];
    forall i, j | 0 <= i < j < |r| ensures r[i].index <= r[j].index {
      if i < p && j > p {
        assert r[i] == sorted[i] && r[j] == sorted[j - 1];
      } else if i > p {
        assert r[i] == sorted[i - 1] && r[j] == sorted[j - 1];
      }
    }
  }

  /** Inserting keeps the entries that share `e`'s index in order, with `e`
      last among them, and leaves every other index's entries alone. */
  lemma {:induction false} InsertStable(sorted: seq<DryRunEntry>, e: DryRunEntry, k: int)
    requires SortedByIndex(sorted)
    ensures WithIndex(Insert(sorted, e), k) == WithIndex(sorted, k) + WithIndex([e], k)
  {
    var p := InsertPosition(sorted, e.index);
    assert sorted == sorted[..p] + sorted[p..];
    SpliceStable(sorted[..p], e, sorted[p..], k);
  }

  lemma {:induction false} SpliceStable(a: seq<DryRunEntry>, e: DryRunEntry, b: seq<DryRunEntry>, k: int)
    requires forall i :: 0 <= i < |b| ==> b[i].index > e.index
    ensures WithIndex(a + [e] + b, k) == WithIndex(a + b, k) + WithIndex([e], k)
  {
    WithIndexAppend(a + [e], b, k);
    WithIndexAppend(a, [e], k);
    WithIndexAppend(a, b, k);
    assert [e][1..] == [];
    if e.index == k {
      WithIndexNone(b, k);
    } else {
      assert WithIndex([e], k) == [];
    }
  }

  /** Python's `list.sort(key=index)`: a stable sort. */
  function SortByIndex(s: seq<DryRunEntry>): (r: seq<DryRunEntry>)
    ensures SortedByIndex(r)
  {
    if s == [] then [] else Insert(SortByIndex(s[..|s| - 1]), s[|s| - 1])
  }

  /** The sort is a permutation. */
  lemma {:induction false} SortIsPermutation(s: seq<DryRunEntry>)
    ensures multiset(SortByIndex(s)) == multiset(s)
  {
    if s != [] {
      var init, last := s[..|s| - 1], s[|s| - 1];
      SortIsPermutation(init);
      assert SortByIndex(s) == Insert(SortByIndex(init), last);
      assert multiset(SortByIndex(s)) == multiset(init) + multiset{last};
      assert s == init + [last];
    }
  }

  /** The sort keeps entries with equal indices in their original order. */
  lemma {:induction false} SortIsStable(s: seq<DryRunEntry>, k: int)
    ensures WithIndex(SortByIndex(s), k) == WithIndex(s, k)
  {
    if s != [] {
      var init := s[..|s| - 1];
      SortIsStable(init, k);
      InsertStable(SortByIndex(init), s[|s| - 1], k);
      assert s == init + [s[|s| - 1]];
      WithIndexAppend(init, [s[|s| - 1]], k);
    }
  }

  /** An entry whose index is at least every other index goes last. */
  lemma InsertAtEnd(sorted: seq<DryRunEntry>, e: DryRunEntry)
    requires SortedByIndex(sorted)
    requires forall i :: 0 <= i < |sorted| ==> sorted[i].index <= e.index
    ensures Insert(sorted, e) == sorted + [e]
  {
    var p := InsertPosition(sorted, e.index);
    assert p == |sorted|;
    assert sorted[..p] == sorted;
  }

  /** Dropping the last entry of a sorted sequence leaves it sorted, below
      the dropped entry. */
  lemma {:induction false} SortedInit(s: seq<DryRunEntry>, init: seq<DryRunEntry>, last: DryRunEntry)
    requires SortedByIndex(s) && s == init + [last]
    ensures SortedByIndex(init)
    ensures forall i :: 0 <= i < |init| ==> init[i].index <= last.index
  {
    assert last == s[|init|];
    forall i | 0 <= i < |init| ensures init[i] == s[i] && init[i].index <= last.index {
      assert s[i].index <= s[|init|].index;
    }
  }

  lemma {:induction false} SortStep(s: seq<DryRunEntry>)
    requires s != []
    ensures s == s[..|s| - 1] + [s[|s| - 1]]
    ensures SortByIndex(s) == Insert(SortByIndex(s[..|s| - 1]), s[|s| - 1])
  {
  }

  /** Entries that already come in index order are left where they are. */
  lemma {:induction false} SortKeepsSorted(s: seq<DryRunEntry>)
    requires SortedByIndex(s)
    ensures SortByIndex(s) == s
  {
    if s != [] {
      var init, last := s[..|s| - 1], s[|s| - 1];
      SortStep(s);
      SortedInit(s, init, last);
      SortKeepsSorted(init);
      InsertAtEnd(init, last);
    }
  }

  // ---------------------------------------------------------------------
  // Entries
  // ---------------------------------------------------------------------

  function Min(a: int, b: int): int {
    if a <= b then a else b
  }

  /** One commit's entry: the first `hashLen` characters of its hash, and
      whether either recorded date differs from the final one. */
  function EntryFor(c: Commit, final: DateTime, hashLen: nat): (e: DryRunEntry)
    requires hashLen > 0
    ensures e.index == c.index
    ensures |e.hashPrefix| == Min(hashLen, |c.hash|) && e.hashPrefix <= c.hash
    ensures e.authorDate == c.authorDate && e.committerDate == c.committerDate && e.finalTimestamp == final
    ensures e.changed <==> !SameInstant(c.authorDate, final) || !SameInstant(c.committerDate, final)
  {
    var changed := !SameInstant(c.authorDate, final) || !SameInstant(c.committerDate, final);
    DryRunEntry(c.index, c.hash[..Min(hashLen, |c.hash|)], c.authorDate, c.committerDate, final, changed)
  }

  /** The entries in commit order, before sorting. */
  function RawEntries(commits: seq<Commit>, final: map<string, DateTime>, hashLen: nat): (r: seq<DryRunEntry>)
    requires hashLen > 0
    requires forall i :: 0 <= i < |commits| ==> commits[i].hash in final
    ensures |r| == |commits|
    ensures forall i :: 0 <= i < |commits| ==> r[i] == EntryFor(commits[i], final[commits[i].hash], hashLen)
  {
    seq(|commits|, i requires 0 <= i < |commits| => EntryFor(commits[i], final[commits[i].hash], hashLen))
  }

  /** One entry per commit, sorted stably by index; a non-positive prefix
      length or a commit the map does not date is an error. */
  function BuildEntries(commits: seq<Commit>, final: map<string, DateTime>, hashLen: int): (r: Result<seq<DryRunEntry>, DryRunFailure>)
    ensures hashLen <= 0 ==> r == Err(ValueError("hash_len must be a positive integer"))
    ensures hashLen > 0 ==> (r.Ok? <==> forall i :: 0 <= i < |commits| ==> commits[i].hash in final)
    ensures hashLen > 0 && r.Err? ==> exists i :: (0 <= i < |commits| && commits[i].hash !in final
      && r.error == KeyError(commits[i].hash)
      && forall j :: 0 <= j < i ==> commits[j].hash in final)
    ensures r.Ok? ==> hashLen > 0 && |r.value| == |commits| && SortedByIndex(r.value)
  {
    if hashLen <= 0 then
      Err(ValueError("hash_len must be a positive integer"))
    else
      match FirstUndated(commits, final, 0)
      case Some(i) => Err(KeyError(commits[i].hash))
      case None =>
        var raw := RawEntries(commits, final, hashLen);
        SortLength(raw);
        Ok(SortByIndex(raw))
  }

  /** The built entries are the per-commit entries, reordered only by the
      stable sort: the same multiset, and equal indices in commit order. */
  lemma EntriesArePerCommit(commits: seq<Commit>, final: map<string, DateTime>, hashLen: int)
    requires hashLen > 0 && forall i :: 0 <= i < |commits| ==> commits[i].hash in final
    ensures BuildEntries(commits, final, hashLen).Ok?
    ensures multiset(BuildEntries(commits, final, hashLen).value) == multiset(RawEntries(commits, final, hashLen))
    ensures forall k :: WithIndex(BuildEntries(commits, final, hashLen).value, k) == WithIndex(RawEntries(commits, final, hashLen), k)
  {
    var raw := RawEntries(commits, final, hashLen);
    SortIsPermutation(raw);
    forall k ensures WithIndex(SortByIndex(raw), k) == WithIndex(raw, k) {
      SortIsStable(raw, k);
    }
  }

  /** Commits listed in index order, as the log parser and the scope
      produce them, give their entries in that same order. */
  lemma EntriesFollowCommits(commits: seq<Commit>, final: map<string, DateTime>, hashLen: int)
    requires hashLen > 0 && forall i :: 0 <= i < |commits| ==> commits[i].hash in final
    requires forall i, j :: 0 <= i < j < |commits| ==> commits[i].index <= commits[j].index
    ensures BuildEntries(commits, final, hashLen).Ok?
    ensures forall i :: 0 <= i < |commits| ==>
      BuildEntries(commits, final, hashLen).value[i] == EntryFor(commits[i], final[commits[i].hash], hashLen)
  {
    var raw := RawEntries(commits, final, hashLen);
    assert SortedByIndex(raw);
    SortKeepsSorted(raw);
  }

  lemma SameInstantReflexive(a: DateTime)
    ensures SameInstant(a, a)
  {
  }

  /** Under author mode a commit counts as changed exactly when its
      committer date is not its author date. */
  lemma AuthorModeChangedIffDatesDiffer(commits: seq<Commit>, hashLen: int, i: int)
    requires hashLen > 0 && 0 <= i < |commits|
    requires Engine.LastOccurrence(Engine.Hashes(commits), i)
    ensures var final := Engine.AuthorMode(commits);
      commits[i].hash in final
      && (EntryFor(commits[i], final[commits[i].hash], hashLen).changed
          <==> !SameInstant(commits[i].committerDate, commits[i].authorDate))
  {
    SameInstantReflexive(commits[i].authorDate);
    assert commits[i] in commits;
  }

  // ---------------------------------------------------------------------
  // The table
  // ---------------------------------------------------------------------

  datatype TableError = IndexError

  function Max(a: nat, b: nat): nat {
    if a >= b then a else b
  }

  /** `s.ljust(width)`: `s` followed by spaces up to `width` characters. */
  function LeftJustify(s: string, width: nat): (r: string)
    ensures |r| == Max(|s|, width)
    ensures r[..|s|] == s
    ensures forall j :: |s| <= j < |r| ==> r[j] == ' '
  {
    if |s| >= width then s else s + Repeat(' ', width - |s|)
  }

  /** Widening each column to fit one more row. */
  function Widen(widths: seq<nat>, row: seq<string>): (w: seq<nat>)
    requires |row| <= |widths|
    ensures |w| == |widths|
    ensures forall i :: 0 <= i < |w| ==> w[i] == if i < |row| then Max(widths[i], |row[i]|) else widths[i]
  {
    seq(|widths|, i requires 0 <= i < |widths| => if i < |row| then Max(widths[i], |row[i]|) else widths[i])
  }

  /** The column widths: each the longest cell of its column, header
      included. */
  function Widths(headers: seq<string>, rows: seq<seq<string>>): (w: seq<nat>)
    requires forall r :: 0 <= r < |rows| ==> |rows[r]| <= |headers|
    ensures |w| == |headers|
    ensures forall i :: 0 <= i < |w| ==> w[i] >= |headers[i]|
    ensures forall r, i :: 0 <= r < |rows| && 0 <= i < |rows[r]| ==> w[i] >= |rows[r][i]|
    ensures forall i :: 0 <= i < |w| ==>
      w[i] == |headers[i]| || exists r :: 0 <= r < |rows| && i < |rows[r]| && w[i] == |rows[r][i]|
  {
    if rows == [] then
      seq(|headers|, i requires 0 <= i < |headers| => |headers[i]|)
    else
      var n := |rows| - 1;
      var w0 := Widths(headers, rows[..n]);
      assert forall r :: 0 <= r < n ==> rows[..n][r] == rows[r];
      Widen(w0, rows[n])
  }

  /** Where column `i` starts: the widths before it plus two spaces after
      each of them. */
  function ColumnStart(widths: seq<nat>, i: nat): nat
    requires i <= |widths|
  {
    if i == 0 then 0 else ColumnStart(widths, i - 1) + widths[i - 1] + 2
  }

  function Sum(w: seq<nat>): nat {
    if w == [] then 0 else Sum(w[..|w| - 1]) + w[|w| - 1]
  }

  lemma {:induction false} ColumnStartSum(widths: seq<nat>, i: nat)
    requires i <= |widths|
    ensures ColumnStart(widths, i) == Sum(widths[..i]) + 2 * i
  {
    if i > 0 {
      ColumnStartSum(widths, i - 1);
      assert widths[..i][..i - 1] == widths[..i - 1];
    }
  }

  predicate CellsFit(items: seq<string>, widths: seq<nat>) {
    |items| <= |widths| && forall i :: 0 <= i < |items| ==> |items[i]| <= widths[i]
  }

  /** One table line: the cells left-justified to their widths, joined by
      two spaces. */
  function FormatRow(items: seq<string>, widths: seq<nat>): (r: string)
    requires |items| <= |widths|
    ensures CellsFit(items, widths) && |items| >= 1 ==>
      |r| == ColumnStart(widths, |items| - 1) + widths[|items| - 1]
  {
    if |items| == 0 then ""
    else if |items| == 1 then LeftJustify(items[0], widths[0])
    else
      var n := |items| - 1;
      assert CellsFit(items, widths) ==> CellsFit(items[..n], widths);
      FormatRow(items[..n], widths) + "  " + LeftJustify(items[n], widths[n])
  }

  /** Every cell's text sits at its column's start, whatever the other
      cells hold. */
  lemma {:induction false} CellAt(items: seq<string>, widths: seq<nat>, i: nat)
    requires CellsFit(items, widths) && i < |items|
    ensures ColumnStart(widths, i) + |items[i]| <= |FormatRow(items, widths)|
    ensures FormatRow(items, widths)[ColumnStart(widths, i)..ColumnStart(widths, i) + |items[i]|] == items[i]
    decreases |items|
  {
    var n := |items| - 1;
    if i == n {
      LastCellAt(items, widths);
    } else {
      var init := items[..n];
      assert CellsFit(init, widths) && init[i] == items[i];
      CellAt(init, widths, i);
      var a := ColumnStart(widths, i);
      FormatRowSplit(items, widths);
      PrefixSlice(FormatRow(init, widths), "  " + LeftJustify(items[n], widths[n]), a, a + |items[i]|);
    }
  }

  lemma {:induction false} FormatRowSplit(items: seq<string>, widths: seq<nat>)
    requires 2 <= |items| <= |widths|
    ensures FormatRow(items, widths)
      == FormatRow(items[..|items| - 1], widths) + ("  " + LeftJustify(items[|items| - 1], widths[|items| - 1]))
  {
  }

  lemma {:induction false} LastCellAt(items: seq<string>, widths: seq<nat>)
    requires CellsFit(items, widths) && |items| >= 1
    ensures var n := |items| - 1;
      ColumnStart(widths, n) + |items[n]| <= |FormatRow(items, widths)|
      && FormatRow(items, widths)[ColumnStart(widths, n)..ColumnStart(widths, n) + |items[n]|] == items[n]
  {
    var n := |items| - 1;
    var cell := LeftJustify(items[n], widths[n]);
    if n == 0 {
      assert FormatRow(items, widths) == cell;
    } else {
      var init := items[..n];
      assert CellsFit(init, widths);
      var p := FormatRow(init, widths);
      FormatRowSplit(items, widths);
      assert |p| + 2 == ColumnStart(widths, n);
      SuffixSlice(p, "  " + cell, 2, 2 + |items[n]|);
      assert ("  " + cell)[2..2 + |items[n]|] == cell[..|items[n]|];
    }
  }

  lemma PrefixSlice(p: string, t: string, a: nat, b: nat)
    requires a <= b <= |p|
    ensures (p + t)[a..b] == p[a..b]
  {
  }

  lemma SuffixSlice(p: string, t: string, a: nat, b: nat)
    requires a <= b <= |t|
    ensures (p + t)[|p| + a..|p| + b] == t[a..b]
  {
  }

  predicate RowsFit(headers: seq<string>, rows: seq<seq<string>>) {
    forall r :: 0 <= r < |rows| ==> |rows[r]| <= |headers|
  }

  function Dashes(widths: seq<nat>): (d: seq<string>)
    ensures |d| == |widths| && forall i :: 0 <= i < |widths| ==> d[i] == Repeat('-', widths[i])
  {
    seq(|widths|, i requires 0 <= i < |widths| => Repeat('-', widths[i]))
  }

  /** The data lines, one per row. */
  function FormatRows(rows: seq<seq<string>>, widths: seq<nat>): (lines: seq<string>)
    requires forall k :: 0 <= k < |rows| ==> |rows[k]| <= |widths|
    ensures |lines| == |rows|
    ensures forall k :: 0 <= k < |rows| ==> lines[k] == FormatRow(rows[k], widths)
  {
    seq(|rows|, k requires 0 <= k < |rows| => FormatRow(rows[k], widths))
  }

  /** The table: header line, dash line, one line per row; a row longer
      than the header fails as Python's list indexing does. */
  function FormatTable(headers: seq<string>, rows: seq<seq<string>>): (r: Result<seq<string>, TableError>)
    ensures r.Err? <==> !RowsFit(headers, rows)
    ensures r.Ok? ==> var w := Widths(headers, rows);
      r.value == [FormatRow(headers, w), FormatRow(Dashes(w), w)] + FormatRows(rows, w)
  {
    if !RowsFit(headers, rows) then Err(IndexError)
    else
      var w := Widths(headers, rows);
      Ok([FormatRow(headers, w), FormatRow(Dashes(w), w)] + FormatRows(rows, w))
  }

  /** Every line of the table, the header and dash lines and each row as
      long as the header, is `Σ widths + 2·(columns − 1)` characters wide. */
  lemma TableLineWidths(headers: seq<string>, rows: seq<seq<string>>)
    requires RowsFit(headers, rows) && headers != []
    ensures FormatTable(headers, rows).Ok?
    ensures var lines := FormatTable(headers, rows).value;
      var w := Widths(headers, rows);
      && |lines| == |rows| + 2
      && forall k :: 0 <= k < |lines| && (k < 2 || |rows[k - 2]| == |headers|) ==>
           |lines[k]| == Sum(w) + 2 * (|w| - 1)
  {
    var w := Widths(headers, rows);
    TableFits(headers, rows);
    LinesOfWidths(headers, rows, w, FormatTable(headers, rows).value);
  }

  lemma LinesOfWidths(headers: seq<string>, rows: seq<seq<string>>, w: seq<nat>, lines: seq<string>)
    requires |headers| == |w| >= 1
    requires CellsFit(headers, w) && CellsFit(Dashes(w), w)
    requires forall k :: 0 <= k < |rows| ==> CellsFit(rows[k], w)
    requires forall k :: 0 <= k < |rows| ==> |rows[k]| <= |w|
    requires lines == [FormatRow(headers, w), FormatRow(Dashes(w), w)] + FormatRows(rows, w)
    ensures |lines| == |rows| + 2
    ensures forall k :: 0 <= k < |lines| && (k < 2 || |rows[k - 2]| == |headers|) ==>
        |lines[k]| == Sum(w) + 2 * (|w| - 1)
  {
    forall k | 0 <= k < |lines| && (k < 2 || |rows[k - 2]| == |headers|)
      ensures |lines[k]| == Sum(w) + 2 * (|w| - 1)
    {
      LineOfWidths(headers, rows, w, lines, k);
    }
  }

  /** One line of `LinesOfWidths`: the header, the dash line or a full row. */
  lemma LineOfWidths(headers: seq<string>, rows: seq<seq<string>>, w: seq<nat>, lines: seq<string>, k: nat)
    requires |headers| == |w| >= 1
    requires CellsFit(headers, w) && CellsFit(Dashes(w), w)
    requires forall k :: 0 <= k < |rows| ==> CellsFit(rows[k], w)
    requires forall k :: 0 <= k < |rows| ==> |rows[k]| <= |w|
    requires lines == [FormatRow(headers, w), FormatRow(Dashes(w), w)] + FormatRows(rows, w)
    requires k < |rows| + 2 && (k < 2 || |rows[k - 2]| == |headers|)
    ensures k < |lines| && |lines[k]| == Sum(w) + 2 * (|w| - 1)
  {
    if k == 0 {
      RowWidth(headers, w);
    } else if k == 1 {
      RowWidth(Dashes(w), w);
    } else {
      assert lines[k] == FormatRows(rows, w)[k - 2];
      RowWidth(rows[k - 2], w);
    }
  }

  /** A line whose cells all fit is `Σ widths + 2·(columns − 1)` wide,
      whatever the cells hold. */
  lemma {:induction false} RowWidth(items: seq<string>, widths: seq<nat>)
    requires CellsFit(items, widths) && |items| == |widths| >= 1
    ensures |FormatRow(items, widths)| == Sum(widths) + 2 * (|widths| - 1)
  {
    var n := |widths|;
    ColumnStartSum(widths, n - 1);
    assert widths[..n] == widths;
    assert widths[..n - 1] == widths[..n][..n - 1];
  }

  /** The header, the dash runs and every row fit the computed widths, so
      the header and every full row come out equally wide and each cell
      starts at its column (`RowWidth`, `CellAt`). */
  lemma TableFits(headers: seq<string>, rows: seq<seq<string>>)
    requires RowsFit(headers, rows)
    ensures var w := Widths(headers, rows);
      && CellsFit(headers, w) && CellsFit(Dashes(w), w)
      && forall k :: 0 <= k < |rows| ==> CellsFit(rows[k], w)
  {
  }

  // ---------------------------------------------------------------------
  // The report
  // ---------------------------------------------------------------------

  /** The index-range line: the first and last selected index, or `<none>`. */
  function IndexRangeLine(selected: seq<Commit>): (line: string)
    ensures selected == [] <==> line == "Index range: <none>"
  {
    if selected == [] then "Index range: <none>"
    else
      var line := "Index range: [" + IntToString(selected[0].index) + " .. " + IntToString(selected[|selected| - 1].index) + "]";
      assert line[14] != '<';
      line
  }

  /** The five summary lines; the scope fraction comes as its display text. */
  function ReportHeader(totalCommits: int, fractionText: string, mode: string, selected: seq<Commit>): (lines: seq<string>)
    ensures |lines| == 5
    ensures lines[0] == "Total commits: " + IntToString(totalCommits)
    ensures lines[1] == "Scope fraction: " + fractionText
    ensures lines[2] == "Selected commits: " + IntToString(|selected|)
    ensures lines[3] == IndexRangeLine(selected) && lines[4] == "Mode: " + mode
  {
    ["Total commits: " + IntToString(totalCommits),
     "Scope fraction: " + fractionText,
     "Selected commits: " + IntToString(|selected|),
     IndexRangeLine(selected),
     "Mode: " + mode]
  }

  /** Commits numbered by their position in history, scoped by a positive
      fraction, report the range `[0 .. k-1]`; by a negative one, the range
      `[total-k .. total-1]`. */
  lemma {:induction false} IndexRangeOfScope(commits: seq<Commit>, fraction: real)
    requires -1.0 <= fraction <= 1.0
    requires forall i :: 0 <= i < |commits| ==> commits[i].index == i
    ensures var selected := Scope.ApplyScope(commits, fraction).value.0;
      var k := Scope.SelectedCount(fraction, |commits|);
      && (k == 0 ==> IndexRangeLine(selected) == "Index range: <none>")
      && (k > 0 && fraction > 0.0 ==>
            IndexRangeLine(selected) == "Index range: [0 .. " + IntToString(k - 1) + "]")
      && (k > 0 && fraction < 0.0 ==>
            IndexRangeLine(selected) == "Index range: [" + IntToString(|commits| - k) + " .. " + IntToString(|commits| - 1) + "]")
  {
    var selected := Scope.ApplyScope(commits, fraction).value.0;
    var k := Scope.SelectedCount(fraction, |commits|);
    if k > 0 && fraction > 0.0 {
      assert selected[0] == commits[0] && selected[k - 1] == commits[k - 1];
      IndexRangeLineOf(selected, 0, k - 1);
      assert IntToString(0) == "0";
    } else if k > 0 && fraction < 0.0 {
      assert selected[0] == commits[|commits| - k] && selected[k - 1] == commits[|commits| - 1];
      IndexRangeLineOf(selected, |commits| - k, |commits| - 1);
    }
  }

  lemma {:induction false} IndexRangeLineOf(selected: seq<Commit>, first: int, last: int)
    requires selected != [] && selected[0].index == first && selected[|selected| - 1].index == last
    ensures IndexRangeLine(selected) == "Index range: [" + IntToString(first) + " .. " + IntToString(last) + "]"
  {
  }

  function YesNo(b: bool): string {
    if b then "yes" else "no"
  }

  function TableHeaders(): seq<string> {
    ["idx", "hash", "author_date", "committer_date", "final_timestamp", "changed"]
  }

  /** One entry's table row; dates are shown by the `isoformat` given. */
  function EntryRow(e: DryRunEntry, isoformat: DateTime -> string): (row: seq<string>)
    ensures |row| == |TableHeaders()|
    ensures row[0] == IntToString(e.index) && row[1] == e.hashPrefix && row[5] == YesNo(e.changed)
  {
    [IntToString(e.index), e.hashPrefix, isoformat(e.authorDate), isoformat(e.committerDate),
     isoformat(e.finalTimestamp), YesNo(e.changed)]
  }

  function EntryRows(sorted: seq<DryRunEntry>, isoformat: DateTime -> string): (rows: seq<seq<string>>)
    ensures |rows| == |sorted|
    ensures forall k :: 0 <= k < |sorted| ==> rows[k] == EntryRow(sorted[k], isoformat)
    ensures RowsFit(TableHeaders(), rows)
  {
    seq(|sorted|, k requires 0 <= k < |sorted| => EntryRow(sorted[k], isoformat))
  }

  /** The entries' table, in index order. */
  function EntryTable(entries: seq<DryRunEntry>, isoformat: DateTime -> string): (lines: seq<string>)
    ensures |lines| == |entries| + 2
    ensures lines == FormatTable(TableHeaders(), EntryRows(SortByIndex(entries), isoformat)).value
  {
    var rows := EntryRows(SortByIndex(entries), isoformat);
    SortLength(entries);
    FormatTable(TableHeaders(), rows).value
  }

  /** The note above the table. */
  function PrefixNote(hashLen: int): (lines: seq<string>)
    ensures |lines| == 3 && lines[0] == [] && lines[2] == []
  {
    ["", "Hash shown as " + IntToString(hashLen) + " character prefix", ""]
  }

  /** The report's lines: the summary alone when there are no entries,
      otherwise the summary, the prefix note and the table of the entries
      in index order. */
  function ReportLines(totalCommits: int, fractionText: string, mode: string, selected: seq<Commit>,
                       entries: seq<DryRunEntry>, hashLen: int, isoformat: DateTime -> string): (lines: seq<string>)
    ensures entries == [] ==> lines == ReportHeader(totalCommits, fractionText, mode, selected)
    ensures entries != [] ==>
      lines == ReportHeader(totalCommits, fractionText, mode, selected) + PrefixNote(hashLen) + EntryTable(entries, isoformat)
    ensures |lines| == if entries == [] then 5 else 10 + |entries|
  {
    var header := ReportHeader(totalCommits, fractionText, mode, selected);
    if entries == [] then header
    else header + PrefixNote(hashLen) + EntryTable(entries, isoformat)
  }

  lemma SortLength(s: seq<DryRunEntry>)
    ensures |SortByIndex(s)| == |s|
  {
    SortIsPermutation(s);
    assert |SortByIndex(s)| == |multiset(SortByIndex(s))|;
  }

  /** The rendered report: its lines joined by newlines. */
  function RenderReport(totalCommits: int, fractionText: string, mode: string, selected: seq<Commit>,
                        entries: seq<DryRunEntry>, hashLen: int, isoformat: DateTime -> string): (text: string)
    ensures var lines := ReportLines(totalCommits, fractionText, mode, selected, entries, hashLen, isoformat);
      (forall i :: 0 <= i < |lines| ==> '\n' !in lines[i]) ==> SplitOn(text, '\n') == lines
  {
    var lines := ReportLines(totalCommits, fractionText, mode, selected, entries, hashLen, isoformat);
    JoinSplitsBack(lines);
    JoinWith(lines, '\n')
  }

  lemma JoinSplitsBack(lines: seq<string>)
    requires |lines| >= 1
    ensures (forall i :: 0 <= i < |lines| ==> '\n' !in lines[i]) ==> SplitOn(JoinWith(lines, '\n'), '\n') == lines
  {
    if forall i :: 0 <= i < |lines| ==> '\n' !in lines[i] {
      SplitJoin(lines, '\n');
    }
  }
}
