/**
 * `HEOMSolver._rhs` and the constant branch of `_calculate_rhs`: for every label, the
 * diagonal block `_grad_n` and, for every exponent, a block towards the defined `next` and
 * `prev` labels, recorded in a `_GatherHEOMRHS` and gathered into one block matrix.
 */
module Assembly {
  import opened Wrappers
  import opened Errors
  import opened ComplexNumbers
  import opened Labels
  import opened Hierarchy
  import opened Superops
  import opened Gradients
  import opened Gather
  import opened Solver

  /** One `ops.add_op(row_he, col_he, op)` call, before the labels become block indices. */
  datatype Request = Request(row: Label, col: Label, op: Op)

  /** The block towards `next(l, k)`, when that label exists; `_grad_next` may raise. */
  function NextRequests(h: HierarchyADOs, l: Label, k: nat): Result<seq<Request>, Error>
    requires |l| == |h.exponents| && k < |l|
  {
    match h.Next(l, k)
    case None => Ok([])
    case Some(n) =>
      match GradNext(h, l, k)
      case Err(e) => Err(e)
      case Ok(op) => Ok([Request(l, n, op)])
  }

  /** The block towards `prev(l, k)`, when that label exists; `_grad_prev` may raise. */
  function PrevRequests(h: HierarchyADOs, l: Label, k: nat): Result<seq<Request>, Error>
    requires |l| == |h.exponents| && k < |l|
  {
    match h.Prev(l, k)
    case None => Ok([])
    case Some(p) =>
      match GradPrev(h, l, k)
      case Err(e) => Err(e)
      case Ok(op) => Ok([Request(l, p, op)])
  }

  /** One pass of the inner loop of `_rhs`: the block towards `next` first, then towards `prev`. */
  function NeighbourRequests(h: HierarchyADOs, l: Label, k: nat): Result<seq<Request>, Error>
    requires |l| == |h.exponents| && k < |l|
  {
    var nexts :- NextRequests(h, l, k);
    var prevs :- PrevRequests(h, l, k);
    Ok(nexts + prevs)
  }

  /**
   * The first `k` of `steps` run in order: their requests one after the other, or the
   * exception of the first step that raised.
   */
  function Accumulate(steps: seq<Result<seq<Request>, Error>>, k: nat): Result<seq<Request>, Error>
    requires k <= |steps|
  {
    if k == 0 then Ok([])
    else
      var before :- Accumulate(steps, k - 1);
      var step :- steps[k - 1];
      Ok(before + step)
  }

  /** The passes of the inner loop of `_rhs` for label `l`, one per exponent. */
  function ExponentSteps(h: HierarchyADOs, l: Label): (steps: seq<Result<seq<Request>, Error>>)
    requires |l| == |h.exponents|
    ensures |steps| == |l|
  {
    seq(|l|, k requires 0 <= k < |l| => NeighbourRequests(h, l, k))
  }

  /** The inner loop of `_rhs` over the first `k` exponents. */
  function ExponentRequests(h: HierarchyADOs, l: Label, k: nat): Result<seq<Request>, Error>
    requires |l| == |h.exponents| && k <= |l|
  {
    Accumulate(ExponentSteps(h, l), k)
  }

  /** Everything `_rhs` records for one label: the diagonal block first, then the exponent loop. */
  function LabelRequests(h: HierarchyADOs, l: Label): Result<seq<Request>, Error>
    requires |l| == |h.exponents|
  {
    var rest :- ExponentRequests(h, l, |l|);
    Ok([Request(l, l, GradN(h, l))] + rest)
  }

  /** The passes of the outer loop of `_rhs`, one per label of `ls`. */
  function LabelSteps(h: HierarchyADOs, ls: seq<Label>): (steps: seq<Result<seq<Request>, Error>>)
    requires forall l :: l in ls ==> |l| == |h.exponents|
    ensures |steps| == |ls|
  {
    seq(|ls|, i requires 0 <= i < |ls| => LabelRequests(h, ls[i]))
  }

  /** The outer loop of `_rhs` over the labels `ls`, stopping at the first exception. */
  function AllRequests(h: HierarchyADOs, ls: seq<Label>): Result<seq<Request>, Error>
    requires forall l :: l in ls ==> |l| == |h.exponents|
  {
    Accumulate(LabelSteps(h, ls), |ls|)
  }

  /** The triples `add_op` appends for the requests: `f_idx` of both labels, KeyError for an unknown one. */
  function Record(fIdx: map<Label, nat>, rs: seq<Request>): Result<seq<Triple>, Error>
  {
    if |rs| == 0 then Ok([])
    else
      var before :- Record(fIdx, rs[..|rs| - 1]);
      var r := rs[|rs| - 1];
      if r.row in fIdx && r.col in fIdx then Ok(before + [Triple(fIdx[r.row], fIdx[r.col], r.op)])
      else Err(KeyError)
  }

  /** Every label of the hierarchy has one entry per exponent. */
  lemma LabelLengths(h: HierarchyADOs)
    ensures forall l :: l in h.Labels() ==> |l| == |h.exponents|
  {
    forall l | l in h.Labels()
      ensures |l| == |h.exponents|
    {
      LabelsExactly(h, l);
    }
  }

  /** `fIdx` knows every label of the hierarchy. */
  predicate Indexes(fIdx: map<Label, nat>, h: HierarchyADOs)
  {
    forall l :: l in h.Labels() ==> l in fIdx
  }

  /** The matrix `_rhs` returns, as a function of the solver. */
  function RhsMatrix(s: HEOMSolver): Result<BlockMatrix, Error>
  {
    var h := s.ados;
    LabelLengths(h);
    var rs :- AllRequests(h, h.Labels());
    var ts :- Record(h.LabelIdx(), rs);
    Ok(FromBlocks(SortByKey(ts), s.NAdos(), s.SupShape()))
  }

  lemma AppendAssociative<T>(a: seq<T>, b: seq<T>, c: seq<T>)
    ensures a + b + c == a + (b + c)
  {
  }

  lemma RecordSnoc(fIdx: map<Label, nat>, rs: seq<Request>, r: Request)
    requires Record(fIdx, rs).Ok?
    requires r.row in fIdx && r.col in fIdx
    ensures Record(fIdx, rs + [r]) == Ok(Record(fIdx, rs).value + [Triple(fIdx[r.row], fIdx[r.col], r.op)])
  {
    assert (rs + [r])[..|rs|] == rs;
  }

  /** A run that has not raised yet either raises with its next step or appends that step's requests. */
  lemma AccumulateStep(steps: seq<Result<seq<Request>, Error>>, k: nat)
    requires k < |steps| && Accumulate(steps, k).Ok?
    ensures steps[k].Err? ==> Accumulate(steps, k + 1) == Err(steps[k].error)
    ensures steps[k].Ok? ==> Accumulate(steps, k + 1) == Ok(Accumulate(steps, k).value + steps[k].value)
  {
  }

  /** Once a step has raised, the rest of the run leaves that exception as its result. */
  lemma {:induction false} AccumulateErrorPersists(steps: seq<Result<seq<Request>, Error>>, k: nat, j: nat)
    requires k <= j <= |steps|
    requires Accumulate(steps, k).Err?
    ensures Accumulate(steps, j) == Accumulate(steps, k)
  {
    if j > k {
      AccumulateErrorPersists(steps, k, j - 1);
    }
  }

  /** A run succeeds exactly when each of its steps does. */
  lemma {:induction false} AccumulateOk(steps: seq<Result<seq<Request>, Error>>, k: nat)
    requires k <= |steps|
    ensures Accumulate(steps, k).Ok? <==> forall j :: 0 <= j < k ==> steps[j].Ok?
  {
    if k > 0 {
      AccumulateOk(steps, k - 1);
    }
  }

  /** A successful run holds exactly the requests of its steps. */
  lemma {:induction false} AccumulateMembers(steps: seq<Result<seq<Request>, Error>>, k: nat, r: Request)
    requires k <= |steps| && Accumulate(steps, k).Ok?
    ensures forall j :: 0 <= j < k ==> steps[j].Ok?
    ensures r in Accumulate(steps, k).value <==> exists j :: 0 <= j < k && steps[j].Ok? && r in steps[j].value
  {
    AccumulateOk(steps, k);
    if k > 0 {
      AccumulateMembers(steps, k - 1, r);
      assert Accumulate(steps, k).value == Accumulate(steps, k - 1).value + steps[k - 1].value;
    }
  }

  lemma ExponentStep(h: HierarchyADOs, l: Label, k: nat)
    requires |l| == |h.exponents| && k < |l|
    requires ExponentRequests(h, l, k).Ok?
    ensures NeighbourRequests(h, l, k).Err? ==> ExponentRequests(h, l, k + 1) == Err(NeighbourRequests(h, l, k).error)
    ensures NeighbourRequests(h, l, k).Ok? ==>
              ExponentRequests(h, l, k + 1) == Ok(ExponentRequests(h, l, k).value + NeighbourRequests(h, l, k).value)
  {
    AccumulateStep(ExponentSteps(h, l), k);
  }

  /** Once the exponent loop has raised, it has raised the same exception for the whole label. */
  lemma ExponentErrorPersists(h: HierarchyADOs, l: Label, k: nat, j: nat)
    requires |l| == |h.exponents| && k <= j <= |l|
    requires ExponentRequests(h, l, k).Err?
    ensures ExponentRequests(h, l, j) == ExponentRequests(h, l, k)
  {
    AccumulateErrorPersists(ExponentSteps(h, l), k, j);
  }

  /** The body of the inner loop of `_rhs` for label `l` and exponent `k`. */
  method RecordNeighbours(ops: Gatherer, h: HierarchyADOs, l: Label, k: nat, ghost before: seq<Request>)
    returns (res: Outcome<Error>)
    requires l in h.Labels() && |l| == |h.exponents| && k < |l|
    requires Indexes(ops.fIdx, h)
    requires Record(ops.fIdx, before) == Ok(ops.ops)
    modifies ops
    ensures var step := NeighbourRequests(h, l, k);
            && (res.Fail? <==> step.Err?)
            && (res.Fail? ==> res.error == step.error)
            && (res.Pass? ==> Record(ops.fIdx, before + step.value) == Ok(ops.ops))
  {
    var nextHe := h.Next(l, k);
    ghost var nexts: seq<Request> := [];
    if nextHe.Some? {
      var op := GradNext(h, l, k);
      if op.Err? {
        return Fail(op.error);
      }
      NextInHierarchy(h, l, k);
      nexts := [Request(l, nextHe.value, op.value)];
      RecordSnoc(ops.fIdx, before, nexts[0]);
      var _ := ops.AddOp(l, nextHe.value, op.value);
    }
    assert before + nexts == before || nextHe.Some?;
    assert Record(ops.fIdx, before + nexts) == Ok(ops.ops);
    assert NextRequests(h, l, k) == Ok(nexts);
    var prevHe := h.Prev(l, k);
    ghost var prevs: seq<Request> := [];
    if prevHe.Some? {
      var op := GradPrev(h, l, k);
      if op.Err? {
        return Fail(op.error);
      }
      PrevInHierarchy(h, l, k);
      prevs := [Request(l, prevHe.value, op.value)];
      RecordSnoc(ops.fIdx, before + nexts, prevs[0]);
      var _ := ops.AddOp(l, prevHe.value, op.value);
    }
    assert before + nexts + prevs == before + nexts || prevHe.Some?;
    assert Record(ops.fIdx, before + nexts + prevs) == Ok(ops.ops);
    assert NextRequests(h, l, k) == Ok(nexts) && PrevRequests(h, l, k) == Ok(prevs);
    assert before + nexts + prevs == before + (nexts + prevs);
    return Pass;
  }

  lemma LabelRequestsUnfold(h: HierarchyADOs, l: Label)
    requires |l| == |h.exponents|
    ensures ExponentRequests(h, l, |l|).Err? ==> LabelRequests(h, l) == Err(ExponentRequests(h, l, |l|).error)
    ensures ExponentRequests(h, l, |l|).Ok? ==>
              LabelRequests(h, l) == Ok([Request(l, l, GradN(h, l))] + ExponentRequests(h, l, |l|).value)
  {
  }

  /** The inner loop of `_rhs`: the neighbour blocks of label `l`, exponent by exponent. */
  method RecordExponents(ops: Gatherer, h: HierarchyADOs, l: Label, ghost start: seq<Request>)
    returns (res: Outcome<Error>)
    requires l in h.Labels() && |l| == |h.exponents|
    requires Indexes(ops.fIdx, h)
    requires Record(ops.fIdx, start) == Ok(ops.ops)
    modifies ops
    ensures var rest := ExponentRequests(h, l, |l|);
            && (res.Fail? <==> rest.Err?)
            && (res.Fail? ==> res.error == rest.error)
            && (res.Pass? ==> Record(ops.fIdx, start + rest.value) == Ok(ops.ops))
  {
    ghost var acc: seq<Request> := [];
    assert start + acc == start;
    for k := 0 to |h.Dims()|
      invariant ExponentRequests(h, l, k) == Ok(acc)
      invariant Record(ops.fIdx, start + acc) == Ok(ops.ops)
    {
      var step := RecordNeighbours(ops, h, l, k, start + acc);
      ExponentStep(h, l, k);
      if step.Fail? {
        ExponentErrorPersists(h, l, k + 1, |l|);
        return Fail(step.error);
      }
      ghost var added := NeighbourRequests(h, l, k).value;
      AppendAssociative(start, acc, added);
      acc := acc + added;
    }
    return Pass;
  }

  /** The body of the outer loop of `_rhs` for label `l`: the diagonal block, then the exponent loop. */
  method RecordLabel(ops: Gatherer, h: HierarchyADOs, l: Label, ghost before: seq<Request>)
    returns (res: Outcome<Error>)
    requires l in h.Labels() && |l| == |h.exponents|
    requires Indexes(ops.fIdx, h)
    requires Record(ops.fIdx, before) == Ok(ops.ops)
    modifies ops
    ensures var mine := LabelRequests(h, l);
            && (res.Fail? <==> mine.Err?)
            && (res.Fail? ==> res.error == mine.error)
            && (res.Pass? ==> Record(ops.fIdx, before + mine.value) == Ok(ops.ops))
  {
    var diag := Request(l, l, GradN(h, l));
    RecordSnoc(ops.fIdx, before, diag);
    var _ := ops.AddOp(l, l, GradN(h, l));
    LabelRequestsUnfold(h, l);
    res := RecordExponents(ops, h, l, before + [diag]);
    if res.Pass? {
      assert before + [diag] + ExponentRequests(h, l, |l|).value == before + LabelRequests(h, l).value;
    }
  }

  lemma IndexesLabels(h: HierarchyADOs)
    ensures Indexes(h.LabelIdx(), h)
  {
    forall l | l in h.Labels()
      ensures l in h.LabelIdx()
    {
      IdxFindsLabel(h, l);
    }
  }

  /** The outer loop of `_rhs`: the blocks of every label, label by label, until one raises. */
  method RecordLabels(ops: Gatherer, h: HierarchyADOs) returns (res: Outcome<Error>)
    requires ops.fIdx == h.LabelIdx() && ops.ops == []
    requires forall l :: l in h.Labels() ==> |l| == |h.exponents|
    modifies ops
    ensures var all := AllRequests(h, h.Labels());
            && (res.Fail? <==> all.Err?)
            && (res.Fail? ==> res.error == all.error)
            && (res.Pass? ==> Record(ops.fIdx, all.value) == Ok(ops.ops))
  {
    var labels := h.Labels();
    IndexesLabels(h);
    ghost var steps := LabelSteps(h, labels);
    for i := 0 to |labels|
      invariant Accumulate(steps, i).Ok?
      invariant Record(ops.fIdx, Accumulate(steps, i).value) == Ok(ops.ops)
    {
      var added := RecordLabel(ops, h, labels[i], Accumulate(steps, i).value);
      AccumulateStep(steps, i);
      if added.Fail? {
        AccumulateErrorPersists(steps, i + 1, |labels|);
        return added;
      }
    }
    return Pass;
  }

  /** `_rhs`: loops over the labels and exponents, records every block, and gathers them. */
  method Rhs(s: HEOMSolver) returns (r: Result<BlockMatrix, Error>)
    ensures r == RhsMatrix(s)
  {
    var h := s.ados;
    LabelLengths(h);
    var ops := new Gatherer(h.LabelIdx(), s.SupShape(), s.NAdos());
    var added := RecordLabels(ops, h);
    if added.Fail? {
      return Err(added.error);
    }
    var m := ops.Gather();
    return Ok(m);
  }

  // ---------------------------------------------------------------------------------------
  // What `_rhs` records

  /** `r` is the block from label `l` towards a defined `next(l, k)`, built by `_grad_next`. */
  predicate IsNextBlock(h: HierarchyADOs, l: Label, k: nat, r: Request)
  {
    |l| == |h.exponents| && k < |l| && r.row == l && h.Next(l, k) == Some(r.col) && GradNext(h, l, k) == Ok(r.op)
  }

  /** `r` is the block from label `l` towards a defined `prev(l, k)`, built by `_grad_prev`. */
  predicate IsPrevBlock(h: HierarchyADOs, l: Label, k: nat, r: Request)
  {
    |l| == |h.exponents| && k < |l| && r.row == l && h.Prev(l, k) == Some(r.col) && GradPrev(h, l, k) == Ok(r.op)
  }

  /** The neighbour blocks of the first `k` exponents leave the label's later entries alone and differ from it. */
  lemma {:induction false} ExponentRequestsColumns(h: HierarchyADOs, l: Label, k: nat)
    requires |l| == |h.exponents| && k <= |l|
    requires ExponentRequests(h, l, k).Ok?
    ensures var rs := ExponentRequests(h, l, k).value;
            && (forall r :: r in rs ==>
                  r.row == l && |r.col| == |l| && r.col != l && forall j :: k <= j < |l| ==> r.col[j] == l[j])
            && (forall i, i2 :: 0 <= i < i2 < |rs| ==> rs[i].col != rs[i2].col)
  {
    if k > 0 {
      ExponentRequestsColumns(h, l, k - 1);
      var before := ExponentRequests(h, l, k - 1).value;
      var nexts := NextRequests(h, l, k - 1).value;
      var prevs := PrevRequests(h, l, k - 1).value;
      var rs := before + (nexts + prevs);
      ExponentStep(h, l, k - 1);
      forall r: Request | r in nexts + prevs
        ensures r.row == l && |r.col| == |l| && r.col[k - 1] != l[k - 1]
        ensures forall j :: k <= j < |l| ==> r.col[j] == l[j]
      {
      }
      forall i, i2 | 0 <= i < i2 < |rs|
        ensures rs[i].col != rs[i2].col
      {
        if i2 >= |before| && i < |before| {
          assert rs[i] in before && rs[i2] in nexts + prevs;
          assert rs[i].col[k - 1] == l[k - 1];
        } else if i >= |before| {
          assert |nexts| <= 1 && |prevs| <= 1;
          assert i == |before| && i2 == |before| + 1;
          assert rs[i].col[k - 1] == l[k - 1] + 1 && rs[i2].col[k - 1] + 1 == l[k - 1];
        }
      }
    }
  }

  /** `r` is a `next` or `prev` block of label `l` for one of the first `k` exponents. */
  predicate IsNeighbourBlock(h: HierarchyADOs, l: Label, k: nat, r: Request)
  {
    exists j :: 0 <= j < k && (IsNextBlock(h, l, j, r) || IsPrevBlock(h, l, j, r))
  }

  lemma NeighbourRequestsSound(h: HierarchyADOs, l: Label, k: nat)
    requires |l| == |h.exponents| && k < |l|
    requires NeighbourRequests(h, l, k).Ok?
    ensures forall r :: r in NeighbourRequests(h, l, k).value ==> IsNextBlock(h, l, k, r) || IsPrevBlock(h, l, k, r)
  {
  }

  /** Every neighbour block of the first `k` exponents is a `next` or `prev` block. */
  lemma ExponentRequestsSound(h: HierarchyADOs, l: Label, k: nat)
    requires |l| == |h.exponents| && k <= |l|
    requires ExponentRequests(h, l, k).Ok?
    ensures forall r :: r in ExponentRequests(h, l, k).value ==> IsNeighbourBlock(h, l, k, r)
  {
    var steps := ExponentSteps(h, l);
    forall r | r in ExponentRequests(h, l, k).value
      ensures IsNeighbourBlock(h, l, k, r)
    {
      AccumulateMembers(steps, k, r);
      var j :| 0 <= j < k && steps[j].Ok? && r in steps[j].value;
      NeighbourRequestsSound(h, l, j);
      NeighbourAt(h, l, j, k, r);
    }
  }

  lemma NeighbourAt(h: HierarchyADOs, l: Label, j: nat, k: nat, r: Request)
    requires j < k && (IsNextBlock(h, l, j, r) || IsPrevBlock(h, l, j, r))
    ensures IsNeighbourBlock(h, l, k, r)
  {
  }

  lemma NeighbourWiden(h: HierarchyADOs, l: Label, k: nat, k2: nat, r: Request)
    requires k <= k2 && IsNeighbourBlock(h, l, k, r)
    ensures IsNeighbourBlock(h, l, k2, r)
  {
    var j :| 0 <= j < k && (IsNextBlock(h, l, j, r) || IsPrevBlock(h, l, j, r));
    NeighbourAt(h, l, j, k2, r);
  }

  /** Every defined `next` and `prev` among the first `k` exponents gets its block. */
  lemma ExponentRequestsComplete(h: HierarchyADOs, l: Label, k: nat)
    requires |l| == |h.exponents| && k <= |l|
    requires ExponentRequests(h, l, k).Ok?
    ensures forall j :: 0 <= j < k && h.Next(l, j).Some? ==>
              GradNext(h, l, j).Ok? && Request(l, h.Next(l, j).value, GradNext(h, l, j).value) in ExponentRequests(h, l, k).value
    ensures forall j :: 0 <= j < k && h.Prev(l, j).Some? ==>
              GradPrev(h, l, j).Ok? && Request(l, h.Prev(l, j).value, GradPrev(h, l, j).value) in ExponentRequests(h, l, k).value
  {
    var steps := ExponentSteps(h, l);
    AccumulateOk(steps, k);
    forall j | 0 <= j < k && h.Next(l, j).Some?
      ensures GradNext(h, l, j).Ok? && Request(l, h.Next(l, j).value, GradNext(h, l, j).value) in ExponentRequests(h, l, k).value
    {
      assert steps[j].Ok?;
      var r := Request(l, h.Next(l, j).value, GradNext(h, l, j).value);
      assert r in steps[j].value;
      AccumulateMembers(steps, k, r);
    }
    forall j | 0 <= j < k && h.Prev(l, j).Some?
      ensures GradPrev(h, l, j).Ok? && Request(l, h.Prev(l, j).value, GradPrev(h, l, j).value) in ExponentRequests(h, l, k).value
    {
      assert steps[j].Ok?;
      var r := Request(l, h.Prev(l, j).value, GradPrev(h, l, j).value);
      assert r in steps[j].value;
      AccumulateMembers(steps, k, r);
    }
  }

  /** The blocks of exponent `j` can be built: `_grad_next` and `_grad_prev` succeed where the neighbour exists. */
  predicate StepOk(h: HierarchyADOs, l: Label, j: nat)
    requires |l| == |h.exponents| && j < |l|
  {
    (h.Next(l, j).Some? ==> GradNext(h, l, j).Ok?) && (h.Prev(l, j).Some? ==> GradPrev(h, l, j).Ok?)
  }

  lemma NeighbourRequestsOk(h: HierarchyADOs, l: Label, k: nat)
    requires |l| == |h.exponents| && k < |l|
    ensures NeighbourRequests(h, l, k).Ok? <==> StepOk(h, l, k)
  {
  }

  /** The exponent loop raises exactly when a `_grad_next` or `_grad_prev` it needs raises. */
  lemma ExponentRequestsOk(h: HierarchyADOs, l: Label, k: nat)
    requires |l| == |h.exponents| && k <= |l|
    ensures ExponentRequests(h, l, k).Ok? <==> forall j :: 0 <= j < k ==> StepOk(h, l, j)
  {
    var steps := ExponentSteps(h, l);
    AccumulateOk(steps, k);
    forall j | 0 <= j < k
      ensures steps[j].Ok? <==> StepOk(h, l, j)
    {
      NeighbourRequestsOk(h, l, j);
    }
  }

  /** Every request of `rs` lies in the block row of label `l`. */
  predicate InRow(rs: seq<Request>, l: Label)
  {
    forall r :: r in rs ==> r.row == l
  }

  /** No two requests of `rs` share a block column. */
  predicate DistinctColumns(rs: seq<Request>)
  {
    forall i, i2 :: 0 <= i < i2 < |rs| ==> rs[i].col != rs[i2].col
  }

  /** No two requests of `rs` share a block position. */
  predicate DistinctBlocks(rs: seq<Request>)
  {
    forall i, i2 :: 0 <= i < i2 < |rs| ==> (rs[i].row, rs[i].col) != (rs[i2].row, rs[i2].col)
  }

  /** `r` is the diagonal block of its row or one of the row's neighbour blocks, and its column is a label. */
  predicate RecordedBlock(h: HierarchyADOs, r: Request)
  {
    && |r.row| == |h.exponents|
    && r.col in h.Labels()
    && (r == Request(r.row, r.row, GradN(h, r.row)) || IsNeighbourBlock(h, r.row, |r.row|, r))
  }

  predicate AllRecorded(h: HierarchyADOs, rs: seq<Request>)
  {
    forall r :: r in rs ==> RecordedBlock(h, r)
  }

  /**
   * For one label, `_rhs` records the diagonal block first, then exactly one block towards
   * every defined `next` and `prev` label and nothing else; no column repeats, and every
   * column is again a label of the hierarchy.
   */
  lemma LabelRequestsShape(h: HierarchyADOs, l: Label)
    requires l in h.Labels() && |l| == |h.exponents|
    requires LabelRequests(h, l).Ok?
    ensures var rs := LabelRequests(h, l).value;
            && |rs| >= 1 && rs[0] == Request(l, l, GradN(h, l))
            && InRow(rs, l) && DistinctColumns(rs) && AllRecorded(h, rs)
            && (forall j :: 0 <= j < |l| && h.Next(l, j).Some? ==>
                  GradNext(h, l, j).Ok? && Request(l, h.Next(l, j).value, GradNext(h, l, j).value) in rs)
            && (forall j :: 0 <= j < |l| && h.Prev(l, j).Some? ==>
                  GradPrev(h, l, j).Ok? && Request(l, h.Prev(l, j).value, GradPrev(h, l, j).value) in rs)
  {
    var rest := ExponentRequests(h, l, |l|).value;
    assert LabelRequests(h, l).value == [Request(l, l, GradN(h, l))] + rest;
    NeighbourColumns(h, l);
    ExponentRequestsComplete(h, l, |l|);
  }

  /** The neighbour blocks of a label of the hierarchy: distinct columns, all of them labels. */
  lemma NeighbourColumns(h: HierarchyADOs, l: Label)
    requires l in h.Labels() && |l| == |h.exponents|
    requires ExponentRequests(h, l, |l|).Ok?
    ensures var rs := [Request(l, l, GradN(h, l))] + ExponentRequests(h, l, |l|).value;
            InRow(rs, l) && DistinctColumns(rs) && AllRecorded(h, rs)
  {
    var diag := Request(l, l, GradN(h, l));
    var rest := ExponentRequests(h, l, |l|).value;
    var rs := [diag] + rest;
    ExponentRequestsColumns(h, l, |l|);
    ExponentRequestsSound(h, l, |l|);
    LabelsExactly(h, l);
    forall r | r in rest
      ensures RecordedBlock(h, r)
    {
      assert IsNeighbourBlock(h, l, |l|, r);
      var j :| 0 <= j < |l| && (IsNextBlock(h, l, j, r) || IsPrevBlock(h, l, j, r));
      NextInHierarchy(h, l, j);
      PrevInHierarchy(h, l, j);
    }
    ConsDistinct(diag, rest);
    assert forall r :: r in rs ==> r == diag || r in rest;
  }

  /** A request in front of others whose columns all differ from its own keeps the columns distinct. */
  lemma ConsDistinct(x: Request, s: seq<Request>)
    requires DistinctColumns(s)
    requires forall r :: r in s ==> r.col != x.col
    ensures DistinctColumns([x] + s)
  {
    forall i, i2 | 0 <= i < i2 < |[x] + s|
      ensures ([x] + s)[i].col != ([x] + s)[i2].col
    {
      assert ([x] + s)[i2] == s[i2 - 1];
      if i > 0 {
        assert ([x] + s)[i] == s[i - 1];
      }
    }
  }

  /** Appending one row's distinct-column requests to requests of other rows keeps positions distinct. */
  lemma AppendRowDistinct(a: seq<Request>, b: seq<Request>, l: Label)
    requires DistinctBlocks(a) && DistinctColumns(b) && InRow(b, l)
    requires forall r :: r in a ==> r.row != l
    ensures DistinctBlocks(a + b)
  {
    forall i, i2 | 0 <= i < i2 < |a + b|
      ensures ((a + b)[i].row, (a + b)[i].col) != ((a + b)[i2].row, (a + b)[i2].col)
    {
      if i2 >= |a| {
        assert (a + b)[i2] == b[i2 - |a|];
        if i >= |a| {
          assert (a + b)[i] == b[i - |a|];
        } else {
          assert (a + b)[i] == a[i];
          assert a[i] in a && b[i2 - |a|] in b;
        }
      } else {
        assert (a + b)[i] == a[i] && (a + b)[i2] == a[i2];
      }
    }
  }

  lemma AppendRecorded(h: HierarchyADOs, a: seq<Request>, b: seq<Request>)
    requires AllRecorded(h, a) && AllRecorded(h, b)
    ensures AllRecorded(h, a + b)
  {
  }

  /** Every label of `ls` has a well-formed request list. */
  predicate LabelsOk(h: HierarchyADOs, ls: seq<Label>)
  {
    forall l :: l in ls ==> |l| == |h.exponents| && LabelRequests(h, l).Ok?
  }

  /** `_rhs` raises exactly when some label's gradient raises. */
  lemma AllRequestsOk(h: HierarchyADOs, ls: seq<Label>)
    requires forall l :: l in ls ==> |l| == |h.exponents|
    ensures AllRequests(h, ls).Ok? <==> LabelsOk(h, ls)
  {
    var steps := LabelSteps(h, ls);
    AccumulateOk(steps, |ls|);
    if forall i :: 0 <= i < |ls| ==> steps[i].Ok? {
      forall l | l in ls
        ensures LabelRequests(h, l).Ok?
      {
        var i :| 0 <= i < |ls| && ls[i] == l;
        assert steps[i].Ok?;
      }
    }
  }

  /** Every request of `rs` lies in the block row of one of the first `k` labels of `ls`. */
  predicate RowsAmong(rs: seq<Request>, ls: seq<Label>, k: nat)
  {
    forall r :: r in rs ==> exists i :: 0 <= i < k && i < |ls| && r.row == ls[i]
  }

  /** The shape of `AllRequestsShape` for the first `k` labels of `ls`. */
  lemma {:induction false} AllRequestsShapeUpTo(h: HierarchyADOs, ls: seq<Label>, k: nat)
    requires forall l :: l in ls ==> l in h.Labels() && |l| == |h.exponents|
    requires NoDuplicates(ls) && k <= |ls|
    requires Accumulate(LabelSteps(h, ls), k).Ok?
    ensures var rs := Accumulate(LabelSteps(h, ls), k).value;
            AllRecorded(h, rs) && DistinctBlocks(rs) && RowsAmong(rs, ls, k)
  {
    if k > 0 {
      var steps := LabelSteps(h, ls);
      var l := ls[k - 1];
      AccumulateOk(steps, k);
      AccumulateOk(steps, k - 1);
      AccumulateStep(steps, k - 1);
      AllRequestsShapeUpTo(h, ls, k - 1);
      var before := Accumulate(steps, k - 1).value;
      var mine := LabelRequests(h, l).value;
      LabelRequestsShape(h, l);
      forall r | r in before
        ensures r.row != l
      {
        var i :| 0 <= i < k - 1 && i < |ls| && r.row == ls[i];
        assert ls[i] != ls[k - 1];
      }
      AppendRowDistinct(before, mine, l);
      AppendRecorded(h, before, mine);
      assert RowsAmong(before + mine, ls, k) by {
        forall r | r in before + mine
          ensures exists i :: 0 <= i < k && i < |ls| && r.row == ls[i]
        {
          if r in before {
            var i :| 0 <= i < k - 1 && i < |ls| && r.row == ls[i];
          } else {
            assert r.row == ls[k - 1];
          }
        }
      }
    }
  }

  /**
   * Over distinct labels of the hierarchy, every recorded block is the diagonal block of its
   * row or a neighbour block of it, its column is a label, no `(row, col)` pair repeats, and
   * every label's blocks are all there.
   */
  lemma AllRequestsShape(h: HierarchyADOs, ls: seq<Label>)
    requires forall l :: l in ls ==> l in h.Labels() && |l| == |h.exponents|
    requires NoDuplicates(ls)
    requires AllRequests(h, ls).Ok?
    ensures var rs := AllRequests(h, ls).value;
            && AllRecorded(h, rs) && DistinctBlocks(rs)
            && (forall r :: r in rs ==> r.row in ls)
            && (forall l :: l in ls ==> LabelRequests(h, l).Ok? && forall r :: r in LabelRequests(h, l).value ==> r in rs)
  {
    var steps := LabelSteps(h, ls);
    var rs := AllRequests(h, ls).value;
    AllRequestsShapeUpTo(h, ls, |ls|);
    AccumulateOk(steps, |ls|);
    forall r | r in rs
      ensures r.row in ls
    {
      var i :| 0 <= i < |ls| && i < |ls| && r.row == ls[i];
    }
    forall l | l in ls
      ensures LabelRequests(h, l).Ok? && forall r :: r in LabelRequests(h, l).value ==> r in rs
    {
      var i :| 0 <= i < |ls| && ls[i] == l;
      assert steps[i] == LabelRequests(h, l);
      forall r | r in LabelRequests(h, l).value
        ensures r in rs
      {
        AccumulateMembers(steps, |ls|, r);
      }
    }
  }

  /** With every label known to `f_idx`, recording never raises and keeps the requests' order. */
  lemma {:induction false} RecordAll(fIdx: map<Label, nat>, rs: seq<Request>)
    requires forall r :: r in rs ==> r.row in fIdx && r.col in fIdx
    ensures Record(fIdx, rs).Ok?
    ensures var ts := Record(fIdx, rs).value;
            && |ts| == |rs|
            && forall i :: 0 <= i < |rs| ==> ts[i] == Triple(fIdx[rs[i].row], fIdx[rs[i].col], rs[i].op)
  {
    if |rs| > 0 {
      var n := |rs| - 1;
      assert forall r :: r in rs[..n] ==> r in rs;
      RecordAll(fIdx, rs[..n]);
    }
  }

  // ---------------------------------------------------------------------------------------
  // The assembled right-hand side

  /** `f_idx` maps distinct labels of the hierarchy to distinct indices. */
  lemma LabelIdxInjective(h: HierarchyADOs, l1: Label, l2: Label)
    requires l1 in h.Labels() && l2 in h.Labels()
    ensures l1 in h.LabelIdx() && l2 in h.LabelIdx()
    ensures h.LabelIdx()[l1] == h.LabelIdx()[l2] ==> l1 == l2
  {
    IdxFindsLabel(h, l1);
    IdxFindsLabel(h, l2);
  }

  /** The triples `add_op` records for requests at distinct positions between labels of the hierarchy. */
  lemma RecordedTriples(h: HierarchyADOs, rs: seq<Request>)
    requires DistinctBlocks(rs)
    requires forall r :: r in rs ==> r.row in h.Labels() && r.col in h.Labels()
    ensures Record(h.LabelIdx(), rs).Ok?
    ensures var idx := h.LabelIdx();
            var ts := Record(idx, rs).value;
            && KeysDetermineOps(ts)
            && (forall r :: r in rs ==> Triple(idx[r.row], idx[r.col], r.op) in ts)
            && (forall t :: t in ts ==> exists r :: r in rs && t == Triple(idx[r.row], idx[r.col], r.op))
  {
    var idx := h.LabelIdx();
    forall r | r in rs
      ensures r.row in idx && r.col in idx
    {
      LabelIdxInjective(h, r.row, r.col);
    }
    RecordAll(idx, rs);
    var ts := Record(idx, rs).value;
    forall t1, t2 | t1 in ts && t2 in ts && Key(t1) == Key(t2)
      ensures t1 == t2
    {
      var i :| 0 <= i < |ts| && ts[i] == t1;
      var i2 :| 0 <= i2 < |ts| && ts[i2] == t2;
      assert rs[i] in rs && rs[i2] in rs;
      LabelIdxInjective(h, rs[i].row, rs[i2].row);
      LabelIdxInjective(h, rs[i].col, rs[i2].col);
      assert (rs[i].row, rs[i].col) == (rs[i2].row, rs[i2].col);
      assert i == i2;
    }
    forall r | r in rs
      ensures Triple(idx[r.row], idx[r.col], r.op) in ts
    {
      var i :| 0 <= i < |rs| && rs[i] == r;
      assert ts[i] == Triple(idx[r.row], idx[r.col], r.op);
    }
    forall t | t in ts
      ensures exists r :: r in rs && t == Triple(idx[r.row], idx[r.col], r.op)
    {
      var i :| 0 <= i < |ts| && ts[i] == t;
      assert rs[i] in rs;
    }
  }

  /** Block `key` of `m` holds `op`. */
  predicate HasBlock(m: BlockMatrix, key: (nat, nat), op: Op)
  {
    key in m.blocks && m.blocks[key] == op
  }

  /**
   * The layout `_rhs` promises: `nhe` by `nhe` blocks of the Liouvillian's size; at `(f_idx(l),
   * f_idx(l))` the `_grad_n` block of `l`; at `(f_idx(l), f_idx(next(l, k)))` and
   * `(f_idx(l), f_idx(prev(l, k)))` the `_grad_next` and `_grad_prev` blocks; nothing else.
   */
  predicate RhsLayout(s: HEOMSolver, m: BlockMatrix)
  {
    var h := s.ados;
    var idx := h.LabelIdx();
    && m.nBlocks == s.NAdos() && m.blockSize == s.SupShape()
    && (forall l :: l in h.Labels() ==>
          l in idx && |l| == |h.exponents| && HasBlock(m, (idx[l], idx[l]), GradN(h, l)))
    && (forall l, k :: l in h.Labels() && |l| == |h.exponents| && 0 <= k < |l| && h.Next(l, k).Some? ==>
          l in idx && h.Next(l, k).value in idx && GradNext(h, l, k).Ok? &&
          HasBlock(m, (idx[l], idx[h.Next(l, k).value]), GradNext(h, l, k).value))
    && (forall l, k :: l in h.Labels() && |l| == |h.exponents| && 0 <= k < |l| && h.Prev(l, k).Some? ==>
          l in idx && h.Prev(l, k).value in idx && GradPrev(h, l, k).Ok? &&
          HasBlock(m, (idx[l], idx[h.Prev(l, k).value]), GradPrev(h, l, k).value))
    && (forall key :: key in m.blocks ==>
          exists l1, l2 :: l1 in h.Labels() && l2 in h.Labels() && l1 in idx && l2 in idx &&
            key == (idx[l1], idx[l2]) && RecordedBlock(h, Request(l1, l2, m.blocks[key])))
  }

  /**
   * `_rhs` succeeds exactly when no `_grad_next` or `_grad_prev` it calls raises, and then the
   * matrix it gathers has the layout of `RhsLayout`.
   */
  lemma RhsBlocks(s: HEOMSolver)
    ensures RhsMatrix(s).Ok? <==> LabelsOk(s.ados, s.ados.Labels())
    ensures RhsMatrix(s).Ok? ==> RhsLayout(s, RhsMatrix(s).value)
  {
    var h := s.ados;
    var ls := h.Labels();
    LabelLengths(h);
    AllRequestsOk(h, ls);
    if AllRequests(h, ls).Ok? {
      var idx := h.LabelIdx();
      LabelsOrdered(h);
      AllRequestsShape(h, ls);
      var rs := AllRequests(h, ls).value;
      RecordedTriples(h, rs);
      var ts := Record(idx, rs).value;
      var m := FromBlocks(SortByKey(ts), s.NAdos(), s.SupShape());
      assert RhsMatrix(s) == Ok(m);
      GatherPlacesBlocks(ts, s.NAdos(), s.SupShape());
      forall r | r in rs
        ensures RequestPlaced(h, m, r)
      {
        LabelIdxInjective(h, r.row, r.col);
        assert Triple(idx[r.row], idx[r.col], r.op) in ts;
      }
      RhsLayoutRows(h, m, rs);
      BlocksRecorded(h, m, rs, ts);
    }
  }

  /** Every block of the gathered matrix comes from a recorded request between two labels. */
  lemma BlocksRecorded(h: HierarchyADOs, m: BlockMatrix, rs: seq<Request>, ts: seq<Triple>)
    requires AllRecorded(h, rs)
    requires forall r :: r in rs ==> r.row in h.Labels() && RequestPlaced(h, m, r)
    requires m.blocks.Keys == (set t | t in ts :: Key(t))
    requires var idx := h.LabelIdx();
             forall t :: t in ts ==> exists r :: r in rs && t == Triple(idx[r.row], idx[r.col], r.op)
    ensures var idx := h.LabelIdx();
            forall key :: key in m.blocks ==>
              exists l1, l2 :: l1 in h.Labels() && l2 in h.Labels() && l1 in idx && l2 in idx &&
                key == (idx[l1], idx[l2]) && RecordedBlock(h, Request(l1, l2, m.blocks[key]))
  {
    var idx := h.LabelIdx();
    forall key | key in m.blocks
      ensures exists l1, l2 :: l1 in h.Labels() && l2 in h.Labels() && l1 in idx && l2 in idx &&
                key == (idx[l1], idx[l2]) && RecordedBlock(h, Request(l1, l2, m.blocks[key]))
    {
      var t :| t in ts && Key(t) == key;
      var r :| r in rs && t == Triple(idx[r.row], idx[r.col], r.op);
      assert RequestPlaced(h, m, r) && RecordedBlock(h, r);
      assert r == Request(r.row, r.col, m.blocks[key]);
    }
  }

  /** Request `r` ended up as the block at the indices of its two labels. */
  predicate RequestPlaced(h: HierarchyADOs, m: BlockMatrix, r: Request)
  {
    var idx := h.LabelIdx();
    r.row in idx && r.col in idx && HasBlock(m, (idx[r.row], idx[r.col]), r.op)
  }

  /** When all blocks of every label were placed, the diagonal, `next` and `prev` blocks are where `RhsLayout` says. */
  lemma RhsLayoutRows(h: HierarchyADOs, m: BlockMatrix, rs: seq<Request>)
    requires forall l :: l in h.Labels() ==>
               |l| == |h.exponents| && LabelRequests(h, l).Ok? && forall r :: r in LabelRequests(h, l).value ==> r in rs
    requires forall r :: r in rs ==> RequestPlaced(h, m, r)
    ensures var idx := h.LabelIdx();
            && (forall l :: l in h.Labels() ==>
                  l in idx && |l| == |h.exponents| && HasBlock(m, (idx[l], idx[l]), GradN(h, l)))
            && (forall l, k :: l in h.Labels() && |l| == |h.exponents| && 0 <= k < |l| && h.Next(l, k).Some? ==>
                  l in idx && h.Next(l, k).value in idx && GradNext(h, l, k).Ok? &&
                  HasBlock(m, (idx[l], idx[h.Next(l, k).value]), GradNext(h, l, k).value))
            && (forall l, k :: l in h.Labels() && |l| == |h.exponents| && 0 <= k < |l| && h.Prev(l, k).Some? ==>
                  l in idx && h.Prev(l, k).value in idx && GradPrev(h, l, k).Ok? &&
                  HasBlock(m, (idx[l], idx[h.Prev(l, k).value]), GradPrev(h, l, k).value))
  {
    var idx := h.LabelIdx();
    forall l | l in h.Labels()
      ensures l in idx && |l| == |h.exponents| && HasBlock(m, (idx[l], idx[l]), GradN(h, l))
    {
      LabelRequestsShape(h, l);
      assert RequestPlaced(h, m, LabelRequests(h, l).value[0]);
    }
    forall l, k | l in h.Labels() && |l| == |h.exponents| && 0 <= k < |l| && h.Next(l, k).Some?
      ensures l in idx && h.Next(l, k).value in idx && GradNext(h, l, k).Ok? &&
              HasBlock(m, (idx[l], idx[h.Next(l, k).value]), GradNext(h, l, k).value)
    {
      LabelRequestsShape(h, l);
      assert RequestPlaced(h, m, Request(l, h.Next(l, k).value, GradNext(h, l, k).value));
    }
    forall l, k | l in h.Labels() && |l| == |h.exponents| && 0 <= k < |l| && h.Prev(l, k).Some?
      ensures l in idx && h.Prev(l, k).value in idx && GradPrev(h, l, k).Ok? &&
              HasBlock(m, (idx[l], idx[h.Prev(l, k).value]), GradPrev(h, l, k).value)
    {
      LabelRequestsShape(h, l);
      assert RequestPlaced(h, m, Request(l, h.Prev(l, k).value, GradPrev(h, l, k).value));
    }
  }
}
