/**
 * `HierarchyADOs`: the ADO label space of one hierarchy. It is built once from the bath
 * exponents and the maximum depth and never changes afterwards, so it is a value here and
 * everything `__init__` precomputes is a member function.
 */
module Hierarchy {
  import opened Wrappers
  import opened Errors
  import opened ComplexNumbers
  import opened Exponents
  import opened Labels

  datatype HierarchyADOs = HierarchyADOs(exponents: seq<BathExponent>, maxDepth: nat) {

    /** `exp.dim or (max_depth + 1)`: both a missing and a zero `dim` fall back to `max_depth + 1`. */
    function DimOf(e: BathExponent): nat
    {
      match e.dim
      case Some(d) => if d != 0 then d else maxDepth + 1
      case None => maxDepth + 1
    }

    function Dims(): (d: seq<nat>)
      ensures |d| == |exponents|
      ensures forall k :: 0 <= k < |d| ==> d[k] >= 1
    {
      seq(|exponents|, k requires 0 <= k < |exponents| => DimOf(exponents[k]))
    }

    /** `self.ck`: the coefficient of every exponent, indexable like a Python list. */
    function Ck(): (c: seq<Complex>)
      ensures |c| == |exponents|
    {
      seq(|exponents|, k requires 0 <= k < |exponents| => exponents[k].ck)
    }

    /** `self.labels`, in the order of the enumeration. */
    function Labels(): seq<Label>
    {
      Enumerate(Dims(), maxDepth)
    }

    /** `self._label_idx`. */
    function LabelIdx(): map<Label, nat>
    {
      IndexMap(Labels())
    }

    /** `idx(label)`: a dictionary lookup that raises KeyError for a label outside the hierarchy. */
    function Idx(l: Label): Result<nat, Error>
    {
      if l in LabelIdx() then Ok(LabelIdx()[l]) else Err(KeyError)
    }

    /** `next(label, k)`: one more excitation of exponent `k`, unless its cap or the depth cap forbids it. */
    function Next(l: Label, k: nat): (r: Option<Label>)
      requires k < |l| && k < |exponents|
      ensures r.None? <==> l[k] >= Dims()[k] - 1 || Level(l) >= maxDepth
      ensures r.Some? ==> |r.value| == |l| && r.value[k] == l[k] + 1 &&
                          forall j :: 0 <= j < |l| && j != k ==> r.value[j] == l[j]
    {
      if l[k] >= Dims()[k] - 1 then None
      else if Level(l) >= maxDepth then None
      else Some(l[..k] + [l[k] + 1] + l[k + 1..])
    }

    /** `prev(label, k)`: one fewer excitation of exponent `k`, unless it has none. */
    function Prev(l: Label, k: nat): (r: Option<Label>)
      requires k < |l|
      ensures r.None? <==> l[k] == 0
      ensures r.Some? ==> |r.value| == |l| && r.value[k] + 1 == l[k] &&
                          forall j :: 0 <= j < |l| && j != k ==> r.value[j] == l[j]
    {
      if l[k] <= 0 then None
      else Some(l[..k] + [l[k] - 1] + l[k + 1..])
    }

    /** `exps(label)`: every exponent repeated as often as the label excites it. */
    function Exps(l: Label): seq<BathExponent>
    {
      ZipRepeat(l, exponents)
    }
  }

  function Repeat<T>(x: T, n: nat): (r: seq<T>)
    ensures |r| == n && forall i :: 0 <= i < n ==> r[i] == x
  {
    seq(n, _ => x)
  }

  /** `sum(((exp,) * n for (n, exp) in zip(label, exps) if n > 0), ())`; `zip` stops at the shorter. */
  function ZipRepeat<T>(l: Label, xs: seq<T>): seq<T>
  {
    if |l| == 0 || |xs| == 0 then []
    else Repeat(xs[0], l[0]) + ZipRepeat(l[1..], xs[1..])
  }

  /** The exponent positions an ADO label excites: `from + k` repeated `label[k]` times, in order. */
  function ExcitationIndices(l: Label, from: nat): seq<nat>
  {
    if |l| == 0 then [] else Repeat(from, l[0]) + ExcitationIndices(l[1..], from + 1)
  }

  // ---------------------------------------------------------------------------------------
  // The label list

  /** The labels are exactly the tuples within the caps and the depth. */
  lemma LabelsExactly(h: HierarchyADOs, l: Label)
    ensures l in h.Labels() <==> InBounds(h.Dims(), h.maxDepth, l)
  {
    EnumerateMembers(h.Dims(), h.maxDepth, l);
  }

  /** The labels are strictly increasing in lexicographic order, so no label repeats. */
  lemma LabelsOrdered(h: HierarchyADOs)
    ensures LexSorted(h.Labels()) && NoDuplicates(h.Labels())
  {
    EnumerateSorted(h.Dims(), h.maxDepth);
    LexSortedNoDuplicates(h.Labels());
  }

  /** Label 0, block 0 of the state vector, is the system density matrix `(0, ..., 0)`. */
  lemma FirstLabelIsSystem(h: HierarchyADOs)
    ensures |h.Labels()| > 0 && h.Labels()[0] == Zeros(|h.exponents|)
  {
    EnumerateStartsAtZero(h.Dims(), h.maxDepth);
  }

  /** `idx` inverts the label list. */
  lemma IdxOfLabel(h: HierarchyADOs, i: nat)
    requires i < |h.Labels()|
    ensures h.Idx(h.Labels()[i]) == Ok(i)
  {
    LabelsOrdered(h);
    IndexMapAt(h.Labels(), i);
  }

  /** `idx` succeeds exactly on the labels of the hierarchy and finds them in the list. */
  lemma IdxFindsLabel(h: HierarchyADOs, l: Label)
    ensures h.Idx(l).Ok? <==> l in h.Labels()
    ensures h.Idx(l).Ok? ==> h.Idx(l).value < |h.Labels()| && h.Labels()[h.Idx(l).value] == l
  {
  }

  // ---------------------------------------------------------------------------------------
  // Neighbours

  /** A defined `next` of a label of the hierarchy is again a label of the hierarchy. */
  lemma NextInHierarchy(h: HierarchyADOs, l: Label, k: nat)
    requires l in h.Labels() && k < |l|
    ensures |l| == |h.exponents|
    ensures h.Next(l, k).Some? ==> h.Next(l, k).value in h.Labels()
  {
    LabelsExactly(h, l);
    if h.Next(l, k).Some? {
      var n := h.Next(l, k).value;
      assert n == l[k := l[k] + 1];
      LevelUpdate(l, k, l[k] + 1);
      LabelsExactly(h, n);
    }
  }

  /** A defined `prev` of a label of the hierarchy is again a label of the hierarchy. */
  lemma PrevInHierarchy(h: HierarchyADOs, l: Label, k: nat)
    requires l in h.Labels() && k < |l|
    ensures |l| == |h.exponents|
    ensures h.Prev(l, k).Some? ==> h.Prev(l, k).value in h.Labels()
  {
    LabelsExactly(h, l);
    if h.Prev(l, k).Some? {
      var p := h.Prev(l, k).value;
      assert p == l[k := l[k] - 1];
      LevelUpdate(l, k, l[k] - 1);
      LabelsExactly(h, p);
    }
  }

  /** `prev` undoes `next`: `prev(next(l, k), k) == l` whenever `next(l, k)` is defined. */
  lemma PrevUndoesNext(h: HierarchyADOs, l: Label, k: nat)
    requires k < |l| && k < |h.exponents|
    requires h.Next(l, k).Some?
    ensures h.Prev(h.Next(l, k).value, k) == Some(l)
  {
    var n := h.Next(l, k).value;
    assert n[..k] + [n[k] - 1] + n[k + 1..] == l;
  }

  /** Within the hierarchy `next` undoes `prev` as well. */
  lemma NextUndoesPrev(h: HierarchyADOs, l: Label, k: nat)
    requires l in h.Labels() && k < |l|
    requires h.Prev(l, k).Some?
    ensures k < |h.exponents| && h.Next(h.Prev(l, k).value, k) == Some(l)
  {
    LabelsExactly(h, l);
    var p := h.Prev(l, k).value;
    assert p == l[k := l[k] - 1];
    LevelUpdate(l, k, l[k] - 1);
    assert p[..k] + [p[k] + 1] + p[k + 1..] == l;
  }

  // ---------------------------------------------------------------------------------------
  // exps

  lemma {:induction false} MultisetOfRepeat<T>(x: T, n: nat)
    ensures multiset(Repeat(x, n)) == multiset{} [x := n]
  {
    if n > 0 {
      assert Repeat(x, n) == Repeat(x, n - 1) + [x];
      MultisetOfRepeat(x, n - 1);
    }
  }

  /** The excitation indices list position `from + k` exactly `l[k]` times, in increasing order. */
  lemma ExcitationIndicesShape(l: Label, from: nat)
    ensures |ExcitationIndices(l, from)| == Level(l)
    ensures forall i :: 0 <= i < |ExcitationIndices(l, from)| ==>
              from <= ExcitationIndices(l, from)[i] < from + |l|
    ensures forall i, j :: 0 <= i <= j < |ExcitationIndices(l, from)| ==>
              ExcitationIndices(l, from)[i] <= ExcitationIndices(l, from)[j]
    ensures forall k :: 0 <= k < |l| ==> multiset(ExcitationIndices(l, from))[from + k] == l[k]
  {
    ExcitationIndicesLength(l, from);
    ExcitationIndicesRange(l, from);
    ExcitationIndicesSorted(l, from);
    ExcitationIndicesCounts(l, from);
  }

  lemma {:induction false} ExcitationIndicesLength(l: Label, from: nat)
    ensures |ExcitationIndices(l, from)| == Level(l)
  {
    if |l| > 0 {
      ExcitationIndicesLength(l[1..], from + 1);
    }
  }

  lemma {:induction false} ExcitationIndicesRange(l: Label, from: nat)
    ensures forall i :: 0 <= i < |ExcitationIndices(l, from)| ==>
              from <= ExcitationIndices(l, from)[i] < from + |l|
  {
    if |l| > 0 {
      var head: seq<nat>, tail: seq<nat> := Repeat(from, l[0]), ExcitationIndices(l[1..], from + 1);
      ExcitationIndicesRange(l[1..], from + 1);
      var ix := head + tail;
      forall i | 0 <= i < |ix| ensures from <= ix[i] < from + |l| {
        if i >= |head| { assert ix[i] == tail[i - |head|]; }
      }
    }
  }

  lemma {:induction false} ExcitationIndicesSorted(l: Label, from: nat)
    ensures forall i, j :: 0 <= i <= j < |ExcitationIndices(l, from)| ==>
              ExcitationIndices(l, from)[i] <= ExcitationIndices(l, from)[j]
  {
    if |l| > 0 {
      var head: seq<nat>, tail: seq<nat> := Repeat(from, l[0]), ExcitationIndices(l[1..], from + 1);
      ExcitationIndicesSorted(l[1..], from + 1);
      ExcitationIndicesRange(l[1..], from + 1);
      var ix := head + tail;
      forall i, j | 0 <= i <= j < |ix| ensures ix[i] <= ix[j] {
        if j >= |head| && i >= |head| {
          assert ix[i] == tail[i - |head|] && ix[j] == tail[j - |head|];
        } else if j >= |head| {
          assert ix[j] == tail[j - |head|];
        }
      }
    }
  }

  lemma {:induction false} ExcitationIndicesCounts(l: Label, from: nat)
    ensures forall k :: 0 <= k < |l| ==> multiset(ExcitationIndices(l, from))[from + k] == l[k]
  {
    if |l| > 0 {
      var head: seq<nat>, tail: seq<nat> := Repeat(from, l[0]), ExcitationIndices(l[1..], from + 1);
      ExcitationIndicesCounts(l[1..], from + 1);
      ExcitationIndicesRange(l[1..], from + 1);
      MultisetOfRepeat(from, l[0]);
      assert multiset(ExcitationIndices(l, from)) == multiset(head) + multiset(tail);
      forall k | 0 <= k < |l| ensures multiset(head + tail)[from + k] == l[k] {
        if k > 0 {
          assert multiset(tail)[(from + 1) + (k - 1)] == l[1..][k - 1];
          assert from + k !in multiset(head);
        } else {
          assert from !in multiset(tail);
        }
      }
    }
  }

  lemma {:induction false} ZipRepeatByIndex<T>(l: Label, xs: seq<T>, from: nat)
    requires |l| == |xs|
    ensures |ZipRepeat(l, xs)| == |ExcitationIndices(l, from)|
    ensures forall i :: 0 <= i < |ZipRepeat(l, xs)| ==>
              from <= ExcitationIndices(l, from)[i] < from + |xs| &&
              ZipRepeat(l, xs)[i] == xs[ExcitationIndices(l, from)[i] - from]
  {
    ExcitationIndicesRange(l, from);
    if |l| > 0 {
      var n := l[0];
      var zt, it := ZipRepeat(l[1..], xs[1..]), ExcitationIndices(l[1..], from + 1);
      ZipRepeatByIndex(l[1..], xs[1..], from + 1);
      var ix: seq<nat>, z := Repeat(from, n) + it, Repeat(xs[0], n) + zt;
      assert ExcitationIndices(l, from) == ix && ZipRepeat(l, xs) == z;
      forall i | 0 <= i < |z| ensures z[i] == xs[ix[i] - from] {
        if i >= n {
          assert z[i] == zt[i - n] && ix[i] == it[i - n];
        } else {
          assert ix[i] == from && z[i] == xs[0];
        }
      }
    }
  }

  /**
   * `exps(l)` lists exponent `k` exactly `l[k]` times in exponent order: it has `sum(l)` entries,
   * entry `i` is the exponent at a position `ix[i]`, and the positions are sorted with
   * position `k` occurring `l[k]` times.
   */
  lemma ExpsMultiplicity(h: HierarchyADOs, l: Label)
    requires |l| == |h.exponents|
    ensures |h.Exps(l)| == Level(l)
    ensures var ix := ExcitationIndices(l, 0);
            && |ix| == Level(l)
            && (forall i :: 0 <= i < |ix| ==> ix[i] < |l| && h.Exps(l)[i] == h.exponents[ix[i]])
            && (forall i, j :: 0 <= i <= j < |ix| ==> ix[i] <= ix[j])
            && (forall k :: 0 <= k < |l| ==> multiset(ix)[k] == l[k])
  {
    ExcitationIndicesShape(l, 0);
    ZipRepeatByIndex(l, h.exponents, 0);
  }
}
