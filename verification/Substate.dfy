/**
 The bytecode table of a side chain's substate: every transaction that brings a
 bytecode in raises its reference count, reverting the transaction lowers it again
 and the last reference removes the entry.
 */
module Substate {
  import opened Wrappers

  type CodeHash = nat
  type Bytecode = seq<nat>

  /** The part of an execution result the bytecode table depends on: one map of new
      bytecodes per transaction. */
  datatype ExecutionResult = ExecutionResult(txBytecodes: seq<map<CodeHash, Bytecode>>)

  datatype Entry = Entry(count: nat, code: Bytecode)

  type Table = map<CodeHash, Entry>

  ghost predicate NoZeroCounts(t: Table) {
    forall h :: h in t ==> t[h].count > 0
  }

  function Count(t: Table, h: CodeHash): nat {
    if h in t then t[h].count else 0
  }

  /** How many of the transactions bring `h` in. */
  function Occurrences(txs: seq<map<CodeHash, Bytecode>>, h: CodeHash): nat {
    if txs == [] then 0 else (if h in txs[0] then 1 else 0) + Occurrences(txs[1..], h)
  }

  // Applying

  function AddCodes(t: Table, codes: map<CodeHash, Bytecode>): Table {
    map h | h in t.Keys + codes.Keys ::
      if h in codes then Entry(Count(t, h) + 1, if h in t then t[h].code else codes[h]) else t[h]
  }

  /** A hash already in the table keeps its code. */
  function AddCode(t: Table, h: CodeHash, code: Bytecode): Table {
    t[h := Entry(Count(t, h) + 1, if h in t then t[h].code else code)]
  }

  lemma {:induction false} AddCodesStep(t: Table, codes: map<CodeHash, Bytecode>, left: set<CodeHash>, h: CodeHash)
    requires h in left && left <= codes.Keys
    ensures AddCodes(t, codes - (left - {h})) == AddCode(AddCodes(t, codes - left), h, codes[h])
  {
    var u, v := codes - left, codes - (left - {h});
    assert v.Keys == u.Keys + {h};
    assert AddCodes(t, v).Keys == AddCodes(t, u).Keys + {h};
  }

  function ApplyTxs(t: Table, txs: seq<map<CodeHash, Bytecode>>): Table
    decreases |txs|
  {
    if txs == [] then t else ApplyTxs(AddCodes(t, txs[0]), txs[1..])
  }

  function ApplyResult(t: Table, changeset: ExecutionResult): Table {
    ApplyTxs(t, changeset.txBytecodes)
  }

  function ApplyAll(t: Table, changesets: seq<ExecutionResult>): Table {
    if changesets == [] then t
    else ApplyResult(ApplyAll(t, changesets[..|changesets| - 1]), changesets[|changesets| - 1])
  }

  // Reverting; `None` stands for the panic "Bytecode should be present" and for a
  // count that would drop below zero.

  function DropCodes(t: Table, codes: set<CodeHash>): Option<Table> {
    if forall h | h in codes :: Count(t, h) > 0 then
      Some(map h | h in t && !(h in codes && t[h].count == 1) ::
             if h in codes then Entry(t[h].count - 1, t[h].code) else t[h])
    else None
  }

  function DropCode(t: Table, h: CodeHash): Table
    requires Count(t, h) > 0
  {
    if t[h].count == 1 then t - {h} else t[h := Entry(t[h].count - 1, t[h].code)]
  }

  lemma {:induction false} DropCodesStep(t: Table, codes: set<CodeHash>, left: set<CodeHash>, h: CodeHash)
    requires h in left && left <= codes && DropCodes(t, codes - left).Some?
    ensures var u := DropCodes(t, codes - left).value;
            && Count(u, h) == Count(t, h)
            && (Count(u, h) == 0 ==> DropCodes(t, codes).None?)
            && (Count(u, h) > 0 ==> DropCodes(t, codes - (left - {h})) == Some(DropCode(u, h)))
  {
    assert codes - (left - {h}) == codes - left + {h};
    var u := DropCodes(t, codes - left).value;
    if Count(u, h) > 0 {
      assert DropCodes(t, codes - left + {h}).value == DropCode(u, h);
    }
  }

  /** One execution result: its transactions are visited first to last. */
  function RevertTxs(t: Table, txs: seq<map<CodeHash, Bytecode>>): Option<Table>
    decreases |txs|
  {
    if txs == [] then Some(t)
    else match DropCodes(t, txs[0].Keys)
      case Some(t') => RevertTxs(t', txs[1..])
      case None => None
  }

  /** A slice of execution results: visited last to first. */
  function RevertAll(t: Table, changesets: seq<ExecutionResult>): Option<Table>
    decreases |changesets|
  {
    if changesets == [] then Some(t)
    else match RevertTxs(t, changesets[|changesets| - 1].txBytecodes)
      case Some(t') => RevertAll(t', changesets[..|changesets| - 1])
      case None => None
  }

  /** `now` is `before` plus one reference for every bytecode of `txs`. Codes are only
      compared for hashes `before` already holds: a later transaction that brings the
      same hash in again does not replace the code. */
  ghost predicate Counts(now: Table, before: Table, txs: seq<map<CodeHash, Bytecode>>) {
    && NoZeroCounts(now)
    && (forall h {:trigger Count(now, h)} :: Count(now, h) == Count(before, h) + Occurrences(txs, h))
    && (forall h {:trigger h in before} :: h in before ==> h in now && now[h].code == before[h].code)
  }

  lemma {:induction false} ApplyTxsCounts(t: Table, txs: seq<map<CodeHash, Bytecode>>)
    requires NoZeroCounts(t)
    ensures Counts(ApplyTxs(t, txs), t, txs)
    decreases |txs|
  {
    if txs != [] {
      ApplyTxsCounts(AddCodes(t, txs[0]), txs[1..]);
    }
  }

  lemma {:induction false} RevertTxsUndoes(now: Table, before: Table, txs: seq<map<CodeHash, Bytecode>>)
    requires NoZeroCounts(before) && Counts(now, before, txs)
    ensures RevertTxs(now, txs) == Some(before)
    decreases |txs|
  {
    if txs == [] {
      assert forall h :: h in now <==> Count(now, h) > 0;
      assert forall h :: h in before <==> Count(before, h) > 0;
      assert now == before;
    } else {
      assert forall h :: h in txs[0].Keys ==> Count(now, h) > 0;
      var next := DropCodes(now, txs[0].Keys).value;
      forall h
        ensures Count(next, h) == Count(before, h) + Occurrences(txs[1..], h)
      {
        assert Count(now, h) == Count(before, h) + Occurrences(txs, h);
      }
      forall h | h in before
        ensures h in next && next[h].code == before[h].code
      {
        assert Count(now, h) == Count(before, h) + Occurrences(txs, h);
        assert Count(before, h) > 0;
      }
      RevertTxsUndoes(next, before, txs[1..]);
    }
  }

  /** Reverting one execution result gives back exactly the table it was applied to. */
  lemma {:induction false} RevertOneUndoesApply(t: Table, changeset: ExecutionResult)
    requires NoZeroCounts(t)
    ensures NoZeroCounts(ApplyResult(t, changeset))
    ensures RevertTxs(ApplyResult(t, changeset), changeset.txBytecodes) == Some(t)
  {
    ApplyTxsCounts(t, changeset.txBytecodes);
    RevertTxsUndoes(ApplyResult(t, changeset), t, changeset.txBytecodes);
  }

  lemma {:induction false} ApplyAllKeepsNoZeroCounts(t: Table, changesets: seq<ExecutionResult>)
    requires NoZeroCounts(t)
    ensures NoZeroCounts(ApplyAll(t, changesets))
    decreases |changesets|
  {
    if changesets != [] {
      var front := changesets[..|changesets| - 1];
      ApplyAllKeepsNoZeroCounts(t, front);
      RevertOneUndoesApply(ApplyAll(t, front), changesets[|changesets| - 1]);
    }
  }

  lemma {:induction false} ApplyAllConcat(t: Table, a: seq<ExecutionResult>, b: seq<ExecutionResult>)
    ensures ApplyAll(t, a + b) == ApplyAll(ApplyAll(t, a), b)
    decreases |b|
  {
    if b == [] {
      assert a + b == a;
    } else {
      var front := b[..|b| - 1];
      ApplyAllConcat(t, a, front);
      assert (a + b)[..|a + b| - 1] == a + front;
    }
  }

  /** Reverting any suffix never meets a missing bytecode and leaves exactly the table
      that applying only the remaining prefix gives. */
  lemma {:induction false} RevertSuffixIsApplyPrefix(t: Table, changesets: seq<ExecutionResult>, k: nat)
    requires NoZeroCounts(t) && k <= |changesets|
    ensures RevertAll(ApplyAll(t, changesets), changesets[k..]) == Some(ApplyAll(t, changesets[..k]))
    decreases |changesets|
  {
    hide ApplyResult, RevertTxs, NoZeroCounts;
    var n := |changesets|;
    if k == n {
      assert changesets[..k] == changesets && changesets[k..] == [];
    } else {
      var front := changesets[..n - 1];
      ApplyAllKeepsNoZeroCounts(t, front);
      RevertOneUndoesApply(ApplyAll(t, front), changesets[n - 1]);
      RevertSuffixIsApplyPrefix(t, front, k);
      assert changesets[k..][..n - k - 1] == front[k..];
      assert changesets[k..][n - k - 1] == changesets[n - 1];
      assert front[..k] == changesets[..k];
    }
  }

  /** The substate object: its table is updated in place, one bytecode at a time. */
  class SubStateData {
    var bytecodes: Table

    constructor ()
      ensures bytecodes == map[]
    {
      bytecodes := map[];
    }

    method ApplyTx(codes: map<CodeHash, Bytecode>)
      modifies this
      ensures bytecodes == AddCodes(old(bytecodes), codes)
    {
      var left := codes.Keys;
      while left != {}
        invariant left <= codes.Keys
        invariant bytecodes == AddCodes(old(bytecodes), codes - left)
        decreases |left|
      {
        var h :| h in left;
        AddCodesStep(old(bytecodes), codes, left, h);
        bytecodes := AddCode(bytecodes, h, codes[h]);
        left := left - {h};
      }
      assert codes - {} == codes;
    }

    method ApplyOne(changeset: ExecutionResult)
      modifies this
      ensures bytecodes == ApplyResult(old(bytecodes), changeset)
    {
      var txs := changeset.txBytecodes;
      for i := 0 to |txs|
        invariant ApplyTxs(bytecodes, txs[i..]) == ApplyTxs(old(bytecodes), txs)
      {
        ApplyTx(txs[i]);
        assert txs[i..][1..] == txs[i + 1..];
      }
    }

    method Apply(changesets: seq<ExecutionResult>)
      modifies this
      ensures bytecodes == ApplyAll(old(bytecodes), changesets)
    {
      for i := 0 to |changesets|
        invariant bytecodes == ApplyAll(old(bytecodes), changesets[..i])
      {
        ApplyOne(changesets[i]);
        assert changesets[..i + 1][..i] == changesets[..i];
      }
      assert changesets[..|changesets|] == changesets;
    }

    /** `ok` is false exactly when the source would panic on a missing bytecode. */
    method Revert(changesets: seq<ExecutionResult>) returns (ok: bool)
      modifies this
      ensures ok <==> RevertAll(old(bytecodes), changesets).Some?
      ensures ok ==> Some(bytecodes) == RevertAll(old(bytecodes), changesets)
    {
      var n := |changesets|;
      assert changesets[..n] == changesets;
      while n > 0
        invariant n <= |changesets|
        invariant RevertAll(bytecodes, changesets[..n]) == RevertAll(old(bytecodes), changesets)
      {
        var txs := changesets[n - 1].txBytecodes;
        assert changesets[..n][..n - 1] == changesets[..n - 1];
        ghost var entry := bytecodes;
        for i := 0 to |txs|
          invariant RevertTxs(bytecodes, txs[i..]) == RevertTxs(entry, txs)
        {
          ok := RevertTx(txs[i].Keys);
          if !ok {
            return;
          }
          assert txs[i..][1..] == txs[i + 1..];
        }
        n := n - 1;
      }
      ok := true;
    }

    method RevertTx(codes: set<CodeHash>) returns (ok: bool)
      modifies this
      ensures ok <==> DropCodes(old(bytecodes), codes).Some?
      ensures ok ==> Some(bytecodes) == DropCodes(old(bytecodes), codes)
    {
      var left := codes;
      assert DropCodes(bytecodes, codes - left).value == bytecodes;
      while left != {}
        invariant left <= codes
        invariant DropCodes(old(bytecodes), codes - left) == Some(bytecodes)
        decreases |left|
      {
        var h :| h in left;
        DropCodesStep(old(bytecodes), codes, left, h);
        if Count(bytecodes, h) == 0 {
          return false;
        }
        bytecodes := DropCode(bytecodes, h);
        left := left - {h};
      }
      assert codes - {} == codes;
      ok := true;
    }
  }
}
