/**
 * `_GatherHEOMRHS`: collects `(row_idx, col_idx, op)` triples for the blocks of the HEOM
 * right-hand side, sorts them and places block `(N, M)` at rows `N*block .. (N+1)*block` and
 * columns `M*block .. (M+1)*block` of a matrix of size `block * nhe`. Blocks stay symbolic.
 */
module Gather {
  import opened Wrappers
  import opened Errors
  import opened Labels
  import opened Superops

  /** One recorded block: its block row, its block column and its operator. */
  datatype Triple = Triple(row: nat, col: nat, op: Op)

  function Key(t: Triple): (nat, nat) { (t.row, t.col) }

  /** The order `list.sort` puts the triples in when no `(row, col)` pair repeats. */
  predicate KeyLe(a: Triple, b: Triple)
  {
    a.row < b.row || (a.row == b.row && a.col <= b.col)
  }

  predicate SortedByKey(s: seq<Triple>)
  {
    forall i, j :: 0 <= i < j < |s| ==> KeyLe(s[i], s[j])
  }

  /** No two recorded triples share a block position unless they are the same triple. */
  predicate KeysDetermineOps(s: seq<Triple>)
  {
    forall t1, t2 :: t1 in s && t2 in s && Key(t1) == Key(t2) ==> t1 == t2
  }

  /** Places `t` in front of the first triple of `s` it does not follow. */
  function Insert(t: Triple, s: seq<Triple>): (r: seq<Triple>)
    requires SortedByKey(s)
    ensures SortedByKey(r)
    ensures multiset(r) == multiset(s) + multiset{t}
  {
    if |s| == 0 then [t]
    else if KeyLe(t, s[0]) then [t] + s
    else
      var rest := Insert(t, s[1..]);
      AllFollow(s[0], rest, s[1..], t);
      ConsSorted(s[0], rest);
      assert s == [s[0]] + s[1..];
      [s[0]] + rest
  }

  /** Every element of a permutation of `s` plus `t` follows a bound that `s` and `t` follow. */
  lemma AllFollow(b: Triple, r: seq<Triple>, s: seq<Triple>, t: Triple)
    requires multiset(r) == multiset(s) + multiset{t}
    requires KeyLe(b, t)
    requires forall y :: y in s ==> KeyLe(b, y)
    ensures forall x :: x in r ==> KeyLe(b, x)
  {
    forall x | x in r
      ensures KeyLe(b, x)
    {
      assert x in multiset(r);
      if x != t {
        assert x in multiset(s);
      }
    }
  }

  lemma ConsSorted(x: Triple, s: seq<Triple>)
    requires SortedByKey(s)
    requires forall y :: y in s ==> KeyLe(x, y)
    ensures SortedByKey([x] + s)
  {
    forall i, j | 0 <= i < j < |[x] + s|
      ensures KeyLe(([x] + s)[i], ([x] + s)[j])
    {
      if i > 0 {
        assert ([x] + s)[i] == s[i - 1];
      }
      assert ([x] + s)[j] == s[j - 1];
    }
  }

  /** `self._ops.sort()`: an insertion sort by block position. */
  function SortByKey(s: seq<Triple>): (r: seq<Triple>)
    ensures SortedByKey(r)
    ensures multiset(r) == multiset(s)
  {
    if |s| == 0 then []
    else
      assert s == s[..|s| - 1] + [s[|s| - 1]];
      Insert(s[|s| - 1], SortByKey(s[..|s| - 1]))
  }

  /**
   * The result of `_csr.from_csr_blocks`: `nBlocks` by `nBlocks` blocks of size `blockSize`,
   * the block at each recorded position and zero elsewhere.
   */
  datatype BlockMatrix = BlockMatrix(nBlocks: nat, blockSize: nat, blocks: map<(nat, nat), Op>)
  {
    /** The matrix is `block * nhe` square. */
    function Size(): nat { nBlocks * blockSize }
  }

  /** The block map of an ordered triple list; when a position repeats, the later triple wins. */
  function BlockMap(ts: seq<Triple>): (m: map<(nat, nat), Op>)
    ensures m.Keys == set t | t in ts :: Key(t)
  {
    if |ts| == 0 then map[]
    else
      var last := ts[|ts| - 1];
      var m := BlockMap(ts[..|ts| - 1])[Key(last) := last.op];
      assert forall t :: t in ts <==> t in ts[..|ts| - 1] || t == last;
      m
  }

  function FromBlocks(ts: seq<Triple>, nBlocks: nat, blockSize: nat): BlockMatrix
  {
    BlockMatrix(nBlocks, blockSize, BlockMap(ts))
  }

  /**
   * Matrix entry `(r, c)` read through the block layout: the operator of block
   * `(r / block, c / block)` and the position `(r % block, c % block)` inside it, or `None`
   * where no block was recorded (a zero entry).
   */
  function EntryAt(m: BlockMatrix, r: nat, c: nat): Option<(Op, nat, nat)>
    requires m.blockSize > 0
  {
    var key := (r / m.blockSize, c / m.blockSize);
    if key in m.blocks then Some((m.blocks[key], r % m.blockSize, c % m.blockSize)) else None
  }

  /** The gatherer's state: the block size, the block count, the label index and the triples so far. */
  class Gatherer {
    const blockSize: nat
    const nBlocks: nat
    /** `f_idx`, the `__getitem__` of the label-to-index dictionary. */
    const fIdx: map<Label, nat>
    var ops: seq<Triple>

    constructor (fIdx: map<Label, nat>, block: nat, nhe: nat)
      ensures this.fIdx == fIdx && blockSize == block && nBlocks == nhe
      ensures ops == []
    {
      this.fIdx := fIdx;
      blockSize := block;
      nBlocks := nhe;
      ops := [];
    }

    /** `add_op`: appends one triple; an unknown label raises KeyError before anything is appended. */
    method AddOp(rowHe: Label, colHe: Label, op: Op) returns (res: Outcome<Error>)
      modifies this
      ensures rowHe in fIdx && colHe in fIdx ==>
                res == Pass && ops == old(ops) + [Triple(fIdx[rowHe], fIdx[colHe], op)]
      ensures !(rowHe in fIdx && colHe in fIdx) ==> res == Fail(KeyError) && ops == old(ops)
    {
      if rowHe !in fIdx || colHe !in fIdx {
        return Fail(KeyError);
      }
      ops := ops + [Triple(fIdx[rowHe], fIdx[colHe], op)];
      return Pass;
    }

    /** `gather`: sorts the triples in place and assembles the block matrix from them. */
    method Gather() returns (m: BlockMatrix)
      modifies this
      ensures ops == SortByKey(old(ops))
      ensures m == FromBlocks(ops, nBlocks, blockSize)
    {
      ops := SortByKey(ops);
      m := FromBlocks(ops, nBlocks, blockSize);
    }
  }

  // ---------------------------------------------------------------------------------------
  // Properties

  /** Sorting keeps exactly the recorded triples. */
  lemma SortKeepsTriples(s: seq<Triple>, t: Triple)
    ensures t in SortByKey(s) <==> t in s
  {
    assert t in SortByKey(s) <==> t in multiset(SortByKey(s));
  }

  /** When positions determine the operators, each recorded triple's operator sits at its position. */
  lemma {:induction false} BlockMapAt(ts: seq<Triple>, t: Triple)
    requires KeysDetermineOps(ts)
    requires t in ts
    ensures Key(t) in BlockMap(ts) && BlockMap(ts)[Key(t)] == t.op
  {
    var last := ts[|ts| - 1];
    if t == last {
    } else {
      assert t in ts[..|ts| - 1];
      assert last in ts;
      assert Key(last) != Key(t);
      BlockMapAt(ts[..|ts| - 1], t);
    }
  }

  /**
   * `gather` puts every recorded block, and nothing else, at its block position, whatever
   * order the triples were recorded in.
   */
  lemma GatherPlacesBlocks(ts: seq<Triple>, nBlocks: nat, blockSize: nat)
    requires KeysDetermineOps(ts)
    ensures var m := FromBlocks(SortByKey(ts), nBlocks, blockSize);
            && m.blocks.Keys == (set t | t in ts :: Key(t))
            && forall t :: t in ts ==> m.blocks[Key(t)] == t.op
  {
    var s := SortByKey(ts);
    forall t
      ensures t in s <==> t in ts
    {
      SortKeepsTriples(ts, t);
    }
    assert KeysDetermineOps(s);
    forall t | t in ts
      ensures BlockMap(s)[Key(t)] == t.op
    {
      BlockMapAt(s, t);
    }
  }

  lemma {:induction false} MulAtLeast(a: int, b: nat)
    requires a >= 1
    ensures a * b >= b
  {
    if a > 1 {
      MulAtLeast(a - 1, b);
      assert a * b == (a - 1) * b + b;
    }
  }

  /** Row `N*block + i` and column `M*block + j` lie in block `(N, M)` at offset `(i, j)`. */
  lemma BlockLayout(blockSize: nat, n: nat, i: nat)
    requires i < blockSize
    ensures (n * blockSize + i) / blockSize == n
    ensures (n * blockSize + i) % blockSize == i
  {
    var r := n * blockSize + i;
    var q, m := r / blockSize, r % blockSize;
    assert r == q * blockSize + m;
    if q > n {
      assert (q - n) * blockSize == q * blockSize - n * blockSize;
      MulAtLeast(q - n, blockSize);
    } else if q < n {
      assert (n - q) * blockSize == n * blockSize - q * blockSize;
      MulAtLeast(n - q, blockSize);
    }
  }

  /**
   * The entries of block `(N, M)` of the assembled matrix occupy rows `N*block .. (N+1)*block`
   * and columns `M*block .. (M+1)*block`: entry `(N*block + i, M*block + j)` is entry `(i, j)`
   * of that block, and it is zero when no block was recorded there.
   */
  lemma EntryOfBlock(m: BlockMatrix, bn: nat, bm: nat, i: nat, j: nat)
    requires i < m.blockSize && j < m.blockSize
    ensures var e := EntryAt(m, bn * m.blockSize + i, bm * m.blockSize + j);
            && ((bn, bm) in m.blocks ==> e == Some((m.blocks[(bn, bm)], i, j)))
            && ((bn, bm) !in m.blocks ==> e == None)
  {
    BlockLayout(m.blockSize, bn, i);
    BlockLayout(m.blockSize, bm, j);
  }
}
