/**
 * `HierarchyADOs.filter`: the labels whose excitations match per-position patterns on the
 * exponents' tags, types and dims.
 */
module Filter {
  import opened Wrappers
  import opened Errors
  import opened Exponents
  import opened Labels
  import opened Hierarchy

  /**
   * The `tags`, `types` and `dims` arguments. A missing list takes no part in the filtering;
   * a `None` entry inside a list is a wildcard. Types are given as the enumeration directly.
   */
  datatype Filters = Filters(
    tags: Option<seq<Option<int>>>,
    types: Option<seq<Option<ExponentType>>>,
    dims: Option<seq<Option<int>>>)

  function LengthOf<T>(f: Option<seq<T>>): nat { if f.Some? then |f.value| else 0 }

  function Max(a: nat, b: nat): nat { if a < b then b else a }

  function Min(a: nat, b: nat): nat { if a < b then a else b }

  /** `n = max((len(f) for _, f in filters), default=0)`. */
  function FilterCount(fs: Filters): nat
  {
    Max(LengthOf(fs.tags), Max(LengthOf(fs.types), LengthOf(fs.dims)))
  }

  predicate NoFilters(fs: Filters)
  {
    fs.tags.None? && fs.types.None? && fs.dims.None?
  }

  /** Every list that is given has the same length `n`. */
  predicate SameLengths(fs: Filters)
  {
    var n := FilterCount(fs);
    && (fs.tags.Some? ==> |fs.tags.value| == n)
    && (fs.types.Some? ==> |fs.types.value| == n)
    && (fs.dims.Some? ==> |fs.dims.value| == n)
  }

  /** Exponent `e` agrees with every non-wildcard filter entry at position `lvl`. */
  predicate Matches(e: BathExponent, fs: Filters, lvl: nat)
    requires SameLengths(fs) && lvl < FilterCount(fs)
  {
    && (fs.tags.Some? && fs.tags.value[lvl].Some? ==> e.tag == fs.tags.value[lvl].value)
    && (fs.types.Some? && fs.types.value[lvl].Some? ==> e.typ == fs.types.value[lvl].value)
    && (fs.dims.Some? && fs.dims.value[lvl].Some? ==>
          e.dim.Some? && e.dim.value == fs.dims.value[lvl].value)
  }

  /** The number of positions below `upto` whose filters exponent `e` matches. */
  function MatchCount(e: BathExponent, fs: Filters, upto: nat): nat
    requires SameLengths(fs) && upto <= FilterCount(fs)
  {
    if upto == 0 then 0
    else MatchCount(e, fs, upto - 1) + (if Matches(e, fs, upto - 1) then 1 else 0)
  }

  /**
   * The caps of the reduced enumeration: exponent `j` may be excited at most once per
   * position it matches, and never beyond its own cap.
   */
  function FilteredDims(h: HierarchyADOs, fs: Filters): (d: seq<nat>)
    requires SameLengths(fs)
    ensures |d| == |h.exponents|
  {
    seq(|h.exponents|, j requires 0 <= j < |h.exponents| =>
      Min(h.Dims()[j], 1 + MatchCount(h.exponents[j], fs, FilterCount(fs))))
  }

  /** `[label for label in ls if sum(label) == level]`. */
  function WithLevel(ls: seq<Label>, level: int): (r: seq<Label>)
    ensures forall l :: l in r <==> l in ls && Level(l) == level
    ensures LexSorted(ls) ==> LexSorted(r)
  {
    if |ls| == 0 then []
    else
      var rest := WithLevel(ls[1..], level);
      assert LexSorted(ls) ==> LexSorted(ls[1..]) && forall l :: l in rest ==> LexLess(ls[0], l) by {
        if LexSorted(ls) {
          forall l | l in rest ensures LexLess(ls[0], l) {
            var i :| 0 <= i < |ls[1..]| && ls[1..][i] == l;
            assert ls[i + 1] == l;
          }
        }
      }
      assert forall l :: l in ls <==> l == ls[0] || l in ls[1..];
      if Level(ls[0]) == level then [ls[0]] + rest else rest
  }

  /** What `filter(level, tags, dims, types)` returns or raises. */
  function FilterResult(h: HierarchyADOs, level: Option<int>, fs: Filters): Result<seq<Label>, Error>
  {
    var n := FilterCount(fs);
    if !SameLengths(fs) then Err(FilterLengthMismatch)
    else if n > h.maxDepth then Err(FilterTooDeep)
    else if NoFilters(fs) then
      (if level.None? then Ok(h.Labels()) else Ok(WithLevel(h.Labels(), level.value)))
    else if level.Some? && level.value != n then Err(FilterLevelMismatch)
    else Ok(WithLevel(Enumerate(FilteredDims(h, fs), n), n))
  }

  /** `filter`, with `filtered_dims` updated in place over the positions and the exponents. */
  method FilterLabels(h: HierarchyADOs, level: Option<int>, fs: Filters)
    returns (r: Result<seq<Label>, Error>)
    ensures r == FilterResult(h, level, fs)
  {
    var n := FilterCount(fs);
    if !SameLengths(fs) {
      return Err(FilterLengthMismatch);
    }
    if n > h.maxDepth {
      return Err(FilterTooDeep);
    }
    if NoFilters(fs) {
      if level.None? {
        return Ok(h.Labels());
      }
      return Ok(WithLevel(h.Labels(), level.value));
    }
    if level.Some? && level.value != n {
      return Err(FilterLevelMismatch);
    }
    var dims := h.Dims();
    var m := |h.exponents|;
    var filteredDims := new nat[m](_ => 1);
    for lvl := 0 to n
      invariant CapsBetween(h, fs, filteredDims[..], lvl, 0, m)
    {
      for j := 0 to m
        invariant CapsBetween(h, fs, filteredDims[..], lvl + 1, 0, j)
        invariant CapsBetween(h, fs, filteredDims[..], lvl, j, m)
      {
        ghost var before := filteredDims[..];
        if !Matches(h.exponents[j], fs, lvl) {
          CapStep(h, fs, before, before, lvl, j);
          continue;
        }
        filteredDims[j] := filteredDims[j] + 1;
        filteredDims[j] := Min(dims[j], filteredDims[j]);
        CapStep(h, fs, before, filteredDims[..], lvl, j);
      }
    }
    assert filteredDims[..] == FilteredDims(h, fs) by {
      assert CapsBetween(h, fs, filteredDims[..], n, 0, m);
    }
    r := Ok(WithLevel(Enumerate(filteredDims[..], n), n));
  }

  /** Entries `lo .. hi` of `fd` are the caps after the first `lvl` filter positions. */
  predicate CapsBetween(h: HierarchyADOs, fs: Filters, fd: seq<nat>, lvl: nat, lo: nat, hi: nat)
    requires SameLengths(fs) && lvl <= FilterCount(fs)
  {
    && |fd| == |h.exponents|
    && hi <= |fd|
    && forall j :: lo <= j < hi ==> fd[j] == Min(h.Dims()[j], 1 + MatchCount(h.exponents[j], fs, lvl))
  }

  /** One step of the inner loop moves exponent `j` from the caps after `lvl` positions to those after `lvl + 1`. */
  lemma CapStep(h: HierarchyADOs, fs: Filters, before: seq<nat>, after: seq<nat>, lvl: nat, j: nat)
    requires SameLengths(fs) && lvl < FilterCount(fs) && j < |h.exponents|
    requires CapsBetween(h, fs, before, lvl + 1, 0, j)
    requires CapsBetween(h, fs, before, lvl, j, |h.exponents|)
    requires |after| == |before|
    requires Matches(h.exponents[j], fs, lvl) ==> after == before[j := Min(h.Dims()[j], before[j] + 1)]
    requires !Matches(h.exponents[j], fs, lvl) ==> after == before
    ensures CapsBetween(h, fs, after, lvl + 1, 0, j + 1)
    ensures CapsBetween(h, fs, after, lvl, j + 1, |h.exponents|)
  {
  }

  // ---------------------------------------------------------------------------------------
  // What filter promises

  /** The three ValueErrors, each raised exactly under its own condition. */
  lemma FilterRaises(h: HierarchyADOs, level: Option<int>, fs: Filters)
    ensures FilterResult(h, level, fs) == Err(FilterLengthMismatch) <==> !SameLengths(fs)
    ensures FilterResult(h, level, fs) == Err(FilterTooDeep) <==>
              SameLengths(fs) && FilterCount(fs) > h.maxDepth
    ensures FilterResult(h, level, fs) == Err(FilterLevelMismatch) <==>
              && SameLengths(fs) && FilterCount(fs) <= h.maxDepth && !NoFilters(fs)
              && level.Some? && level.value != FilterCount(fs)
    ensures FilterResult(h, level, fs).Err? ==>
              FilterResult(h, level, fs).error in {FilterLengthMismatch, FilterTooDeep, FilterLevelMismatch}
  {
  }

  /** Without excitation filters: every label, or exactly the labels of the requested level. */
  lemma FilterWithoutPatterns(h: HierarchyADOs, level: Option<int>, fs: Filters)
    requires NoFilters(fs)
    ensures level.None? ==> FilterResult(h, level, fs) == Ok(h.Labels())
    ensures level.Some? ==>
              && FilterResult(h, level, fs).Ok?
              && forall l :: l in FilterResult(h, level, fs).value <==>
                   l in h.Labels() && Level(l) == level.value
  {
  }

  /**
   * With excitation filters: the result is exactly the set of labels of level `n` (the filter
   * length) whose entry `j` is below `FilteredDims(h, fs)[j]`, that is below both `dims[j]`
   * and one more than the number of positions exponent `j` matches; each of them is a label
   * of the hierarchy, and the result keeps the lexicographic order, so no label repeats.
   */
  lemma FilterWithPatterns(h: HierarchyADOs, level: Option<int>, fs: Filters)
    requires SameLengths(fs) && FilterCount(fs) <= h.maxDepth && !NoFilters(fs)
    requires level.None? || level.value == FilterCount(fs)
    ensures FilterResult(h, level, fs).Ok?
    ensures var r := FilterResult(h, level, fs).value;
            && LexSorted(r)
            && (forall l :: l in r ==> l in h.Labels())
            && (forall l :: l in r <==>
                  Level(l) == FilterCount(fs) && InBounds(FilteredDims(h, fs), FilterCount(fs), l))
  {
    var n := FilterCount(fs);
    var fd := FilteredDims(h, fs);
    var r := WithLevel(Enumerate(fd, n), n);
    assert FilterResult(h, level, fs) == Ok(r);
    EnumerateSorted(fd, n);
    forall l ensures l in r <==> Level(l) == n && InBounds(fd, n, l) {
      EnumerateMembers(fd, n, l);
    }
    forall l | l in r ensures l in h.Labels() {
      FilteredWithinDims(h, fs, l);
      LabelsExactly(h, l);
    }
  }

  /** A label within the filtered caps and the filter depth is within the hierarchy's caps. */
  lemma FilteredWithinDims(h: HierarchyADOs, fs: Filters, l: Label)
    requires SameLengths(fs) && FilterCount(fs) <= h.maxDepth
    requires InBounds(FilteredDims(h, fs), FilterCount(fs), l)
    ensures InBounds(h.Dims(), h.maxDepth, l)
  {
    forall j | 0 <= j < |l| ensures l[j] < h.Dims()[j] {
      assert FilteredDims(h, fs)[j] <= h.Dims()[j];
    }
  }
}
