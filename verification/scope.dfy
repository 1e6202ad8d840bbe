/** Scope selection: a signed fraction picks a contiguous run of commits,
    the oldest ones for a positive fraction and the newest ones for a
    negative fraction; the rest stay untouched. */
module Scope {
  import opened Results

  datatype ScopeError = ScopeError(fraction: real)

  function Abs(x: real): real {
    if x < 0.0 then -x else x
  }

  /** How many commits a fraction selects out of `total`: the floor of
      `|fraction| * total`. */
  function SelectedCount(fraction: real, total: nat): (k: nat)
    requires -1.0 <= fraction <= 1.0
    ensures k <= total
    ensures fraction == 0.0 || total == 0 ==> k == 0
    ensures Abs(fraction) == 1.0 ==> k == total
    ensures k as real <= Abs(fraction) * total as real < k as real + 1.0
  {
    var p := Abs(fraction) * total as real;
    ScaleMonotone(0.0, Abs(fraction), total as real);
    ScaleMonotone(Abs(fraction), 1.0, total as real);
    p.Floor
  }

  lemma ScaleMonotone(a: real, b: real, n: real)
    requires a <= b && 0.0 <= n
    ensures a * n <= b * n
  {
    assert (b - a) * n >= 0.0;
  }

  lemma FloorMonotone(x: real, y: real, kx: int, ky: int)
    requires x <= y && kx as real <= x && y < ky as real + 1.0
    ensures kx <= ky
  {
  }

  /** The pair (selected, untouched) for an ordered commit list. */
  function ApplyScope<T>(commits: seq<T>, fraction: real): (r: Result<(seq<T>, seq<T>), ScopeError>)
    ensures r.Err? <==> !(-1.0 <= fraction <= 1.0)
    ensures r.Err? ==> r.error.fraction == fraction
    ensures r.Ok? ==>
      var (selected, untouched) := r.value;
      var k := SelectedCount(fraction, |commits|);
      && |selected| == k && |untouched| == |commits| - k
      && (fraction >= 0.0 ==> selected + untouched == commits && selected == commits[..k])
      && (fraction < 0.0 ==> untouched + selected == commits && selected == commits[|commits| - k..])
  {
    if !(-1.0 <= fraction <= 1.0) then
      Err(ScopeError(fraction))
    else
      var total := |commits|;
      if total == 0 || fraction == 0.0 then
        Ok(([], commits))
      else
        var k := SelectedCount(fraction, total);
        if k == 0 then
          Ok(([], commits))
        else if fraction > 0.0 then
          Ok((commits[..k], commits[k..]))
        else
          Ok((commits[total - k..], commits[..total - k]))
  }

  /** The selection is monotone in the magnitude of the fraction: a larger
      positive fraction selects a longer prefix, which extends the shorter one. */
  lemma PrefixGrows<T>(commits: seq<T>, f: real, g: real)
    requires 0.0 <= f <= g <= 1.0
    ensures ApplyScope(commits, f).Ok? && ApplyScope(commits, g).Ok?
    ensures ApplyScope(commits, f).value.0 <= ApplyScope(commits, g).value.0
  {
    ScaleMonotone(f, g, |commits| as real);
    var kf := SelectedCount(f, |commits|);
    var kg := SelectedCount(g, |commits|);
    var n := |commits| as real;
    assert Abs(f) == f && Abs(g) == g;
    FloorMonotone(f * n, g * n, kf, kg);
    assert commits[..kf] == commits[..kg][..kf];
  }

  /** A fraction and its negation select the same number of commits, from
      opposite ends of the history. */
  lemma OppositeEnds<T>(commits: seq<T>, f: real)
    requires 0.0 < f <= 1.0
    ensures ApplyScope(commits, f).Ok? && ApplyScope(commits, -f).Ok?
    ensures |ApplyScope(commits, f).value.0| == |ApplyScope(commits, -f).value.0|
    ensures ApplyScope(commits, -f).value.0 == commits[|commits| - |ApplyScope(commits, f).value.0|..]
  {
    assert Abs(-f) == Abs(f);
  }
}
