/**
 * ADO labels: tuples of excitation counts, one per bath exponent, and the lexicographic
 * enumeration of all labels within per-exponent caps and a depth cap.
 */
module Labels {

  type Label = seq<nat>

  /** The hierarchy level of a label: the sum of its entries (Python's `sum(label)`). */
  function Level(l: seq<nat>): nat
  {
    if |l| == 0 then 0 else l[0] + Level(l[1..])
  }

  function Zeros(n: nat): (z: Label)
    ensures |z| == n && forall k :: 0 <= k < n ==> z[k] == 0
  {
    seq(n, _ => 0)
  }

  /** Entry `k` lies in `[0, dims[k])` and the level is at most `maxDepth`. */
  predicate InBounds(dims: seq<nat>, maxDepth: int, l: Label)
  {
    && |l| == |dims|
    && (forall k :: 0 <= k < |l| ==> l[k] < dims[k])
    && Level(l) <= maxDepth
  }

  /** Entry-wise lexicographic order on labels of equal length. */
  predicate LexLess(a: Label, b: Label)
  {
    |a| > 0 && |b| > 0 && (a[0] < b[0] || (a[0] == b[0] && LexLess(a[1..], b[1..])))
  }

  predicate LexSorted(s: seq<Label>)
  {
    forall i, j :: 0 <= i < j < |s| ==> LexLess(s[i], s[j])
  }

  predicate NoDuplicates<T(==)>(s: seq<T>)
  {
    forall i, j :: 0 <= i < j < |s| ==> s[i] != s[j]
  }

  function Prepend(v: nat, ls: seq<Label>): (r: seq<Label>)
    ensures |r| == |ls| && forall i :: 0 <= i < |ls| ==> r[i] == [v] + ls[i]
  {
    seq(|ls|, i requires 0 <= i < |ls| => [v] + ls[i])
  }

  /**
   * Every label with entry `k` below `dims[k]` and level at most `budget`, in lexicographic
   * order (first entry slowest). This is the ordering `state_number_enumerate` produces.
   */
  function Enumerate(dims: seq<nat>, budget: nat): seq<Label>
    decreases |dims|, 1
  {
    if |dims| == 0 then [[]] else EnumerateFrom(dims, budget, 0)
  }

  /** The labels of `Enumerate(dims, budget)` whose first entry is at least `v`. */
  function EnumerateFrom(dims: seq<nat>, budget: nat, v: nat): seq<Label>
    requires |dims| > 0
    decreases |dims|, 0, dims[0] - v
  {
    if v >= dims[0] || v > budget then []
    else Prepend(v, Enumerate(dims[1..], budget - v)) + EnumerateFrom(dims, budget, v + 1)
  }

  /**
   * The label-to-index dictionary built by `{s: i for i, s in enumerate(labels)}`: a later
   * occurrence of a label overwrites an earlier one.
   */
  function IndexMap(labels: seq<Label>): (m: map<Label, nat>)
    ensures m.Keys == set l | l in labels
    ensures forall l :: l in m ==> m[l] < |labels| && labels[m[l]] == l
  {
    if |labels| == 0 then map[]
    else
      var m := IndexMap(labels[..|labels| - 1]);
      assert forall l :: l in labels <==> l in labels[..|labels| - 1] || l == labels[|labels| - 1];
      m[labels[|labels| - 1] := |labels| - 1]
  }

  // ---------------------------------------------------------------------------------------
  // Level arithmetic

  lemma {:induction false} LevelAppend(a: seq<nat>, b: seq<nat>)
    ensures Level(a + b) == Level(a) + Level(b)
  {
    if |a| == 0 {
      assert a + b == b;
    } else {
      assert (a + b)[1..] == a[1..] + b;
      LevelAppend(a[1..], b);
    }
  }

  /** The level of a prefix grows by the next entry. */
  lemma LevelPrefix(s: seq<nat>, k: nat)
    requires k < |s|
    ensures Level(s[..k + 1]) == Level(s[..k]) + s[k]
  {
    assert s[..k + 1] == s[..k] + [s[k]];
    LevelAppend(s[..k], [s[k]]);
  }

  lemma LevelOfZeros(n: nat)
    ensures Level(Zeros(n)) == 0
  {
    if n > 0 {
      assert Zeros(n)[1..] == Zeros(n - 1);
      LevelOfZeros(n - 1);
    }
  }

  /** Replacing entry `k` by `v` changes the level by `v - l[k]`. */
  lemma LevelUpdate(l: seq<nat>, k: nat, v: nat)
    requires k < |l|
    ensures Level(l[k := v]) + l[k] == Level(l) + v
  {
    assert l == l[..k] + [l[k]] + l[k + 1..];
    assert l[k := v] == l[..k] + [v] + l[k + 1..];
    LevelAppend(l[..k] + [l[k]], l[k + 1..]);
    LevelAppend(l[..k], [l[k]]);
    LevelAppend(l[..k] + [v], l[k + 1..]);
    LevelAppend(l[..k], [v]);
  }

  // ---------------------------------------------------------------------------------------
  // Membership: the enumeration holds exactly the labels in bounds

  lemma PrependMember(v: nat, ls: seq<Label>, l: Label)
    ensures l in Prepend(v, ls) <==> |l| > 0 && l[0] == v && l[1..] in ls
  {
    var p := Prepend(v, ls);
    if l in p {
      var i :| 0 <= i < |p| && p[i] == l;
      assert l[1..] == ls[i];
    }
    if |l| > 0 && l[0] == v && l[1..] in ls {
      var i :| 0 <= i < |ls| && ls[i] == l[1..];
      assert p[i] == l;
    }
  }

  /** A nonempty label is in bounds exactly when its head is and its tail is, with the budget reduced. */
  lemma InBoundsCons(dims: seq<nat>, budget: nat, l: Label)
    requires |dims| > 0 && |l| > 0 && l[0] <= budget
    ensures InBounds(dims, budget, l) <==>
            l[0] < dims[0] && InBounds(dims[1..], budget - l[0], l[1..])
  {
    if InBounds(dims, budget, l) {
      forall k | 0 <= k < |l[1..]| ensures l[1..][k] < dims[1..][k] {
        assert l[1..][k] == l[k + 1];
      }
    }
    if l[0] < dims[0] && InBounds(dims[1..], budget - l[0], l[1..]) {
      forall k | 0 <= k < |l| ensures l[k] < dims[k] {
        if k > 0 { assert l[k] == l[1..][k - 1]; }
      }
    }
  }

  lemma {:induction false} EnumerateMembers(dims: seq<nat>, budget: nat, l: Label)
    ensures l in Enumerate(dims, budget) <==> InBounds(dims, budget, l)
    decreases |dims|, 1
  {
    if |dims| == 0 {
      assert l in [[]] <==> l == [];
    } else {
      EnumerateFromMembers(dims, budget, 0, l);
    }
  }

  lemma {:induction false} EnumerateFromMembers(dims: seq<nat>, budget: nat, v: nat, l: Label)
    requires |dims| > 0
    ensures l in EnumerateFrom(dims, budget, v) <==>
            InBounds(dims, budget, l) && l[0] >= v
    decreases |dims|, 0, dims[0] - v
  {
    if v >= dims[0] || v > budget {
      if InBounds(dims, budget, l) && l[0] >= v {
        assert false;
      }
    } else {
      var rest := Enumerate(dims[1..], budget - v);
      assert EnumerateFrom(dims, budget, v) == Prepend(v, rest) + EnumerateFrom(dims, budget, v + 1);
      PrependMember(v, rest, l);
      EnumerateFromMembers(dims, budget, v + 1, l);
      if |l| > 0 && l[0] == v {
        EnumerateMembers(dims[1..], budget - v, l[1..]);
        InBoundsCons(dims, budget, l);
      }
    }
  }

  // ---------------------------------------------------------------------------------------
  // Order: the enumeration is strictly increasing, hence free of duplicates

  lemma {:induction false} LexLessIrreflexive(a: Label)
    ensures !LexLess(a, a)
  {
    if |a| > 0 { LexLessIrreflexive(a[1..]); }
  }

  lemma LexSortedNoDuplicates(s: seq<Label>)
    requires LexSorted(s)
    ensures NoDuplicates(s)
  {
    forall i, j | 0 <= i < j < |s| ensures s[i] != s[j] {
      LexLessIrreflexive(s[i]);
    }
  }

  lemma PrependSorted(v: nat, ls: seq<Label>)
    requires LexSorted(ls)
    ensures LexSorted(Prepend(v, ls))
  {
    var p := Prepend(v, ls);
    forall i, j | 0 <= i < j < |p| ensures LexLess(p[i], p[j]) {
      assert p[i][1..] == ls[i] && p[j][1..] == ls[j];
    }
  }

  lemma {:induction false} EnumerateSorted(dims: seq<nat>, budget: nat)
    ensures LexSorted(Enumerate(dims, budget))
    decreases |dims|, 1
  {
    if |dims| > 0 {
      EnumerateFromSorted(dims, budget, 0);
    }
  }

  lemma {:induction false} EnumerateFromSorted(dims: seq<nat>, budget: nat, v: nat)
    requires |dims| > 0
    ensures LexSorted(EnumerateFrom(dims, budget, v))
    decreases |dims|, 0, dims[0] - v
  {
    if v < dims[0] && v <= budget {
      var a := Prepend(v, Enumerate(dims[1..], budget - v));
      var b := EnumerateFrom(dims, budget, v + 1);
      EnumerateSorted(dims[1..], budget - v);
      PrependSorted(v, Enumerate(dims[1..], budget - v));
      EnumerateFromSorted(dims, budget, v + 1);
      var s := a + b;
      forall i, j | 0 <= i < j < |s| ensures LexLess(s[i], s[j]) {
        if j >= |a| && i < |a| {
          assert s[i] == a[i] && s[j] == b[j - |a|];
          assert b[j - |a|] in b;
          EnumerateFromMembers(dims, budget, v + 1, b[j - |a|]);
        } else if j < |a| {
          assert s[i] == a[i] && s[j] == a[j];
        } else {
          assert s[i] == b[i - |a|] && s[j] == b[j - |a|];
        }
      }
    }
  }

  // ---------------------------------------------------------------------------------------
  // The first label is the all-zero label

  lemma {:induction false} EnumerateStartsAtZero(dims: seq<nat>, budget: nat)
    requires forall k :: 0 <= k < |dims| ==> dims[k] >= 1
    ensures |Enumerate(dims, budget)| > 0 && Enumerate(dims, budget)[0] == Zeros(|dims|)
    decreases |dims|
  {
    if |dims| > 0 {
      var rest := Enumerate(dims[1..], budget);
      EnumerateStartsAtZero(dims[1..], budget);
      assert EnumerateFrom(dims, budget, 0) == Prepend(0, rest) + EnumerateFrom(dims, budget, 1);
      assert Prepend(0, rest)[0] == [0] + Zeros(|dims| - 1) == Zeros(|dims|);
    }
  }

  // ---------------------------------------------------------------------------------------
  // The index dictionary inverts the label list

  lemma {:induction false} IndexMapAt(labels: seq<Label>, i: nat)
    requires NoDuplicates(labels) && i < |labels|
    ensures labels[i] in IndexMap(labels) && IndexMap(labels)[labels[i]] == i
  {
    var n := |labels| - 1;
    if i < n {
      var prefix := labels[..n];
      assert NoDuplicates(prefix);
      IndexMapAt(prefix, i);
      assert prefix[i] == labels[i] != labels[n];
    }
  }
}
