/** The one-pass check of a block's transaction nonces. */
module Nonces {
  import opened Words
  import opened Wrappers

  type Address = nat

  datatype Transaction = Transaction(signer: Address, nonce: U64)

  datatype Account = Account(nonce: U64, hasBytecode: bool)

  datatype Error = AgainstHeader(code: nat) | SignerAccountHasBytecode | NonceNotConsistent

  /** The check passes, fails, or increments a nonce past 64 bits. */
  datatype Verdict = Accepted | Rejected(error: Error) | Overflows

  /** The check of one transaction against the block header, left abstract. */
  type HeaderCheck = Transaction -> Option<Error>

  type Accounts = map<Address, Account>

  /** An unknown account is the default one. */
  function AccountOf(accounts: Accounts, a: Address): Account {
    if a in accounts then accounts[a] else Account(0, false)
  }

  // ---------------------------------------------------------------- the meaning

  /** How many of the first `n` transactions are signed by an address. */
  function Sent(txs: seq<Transaction>, n: nat, a: Address): nat
    requires n <= |txs|
  {
    if n == 0 then 0 else Sent(txs, n - 1, a) + if txs[n - 1].signer == a then 1 else 0
  }

  /** The state nonce plus the number of earlier transactions from the same sender. */
  function Expected(accounts: Accounts, txs: seq<Transaction>, i: nat): nat
    requires i < |txs|
  {
    AccountOf(accounts, txs[i].signer).nonce + Sent(txs, i, txs[i].signer)
  }

  /** What is wrong with the transaction at a position, looking only at the state and the transactions before it. */
  function Judge(check: HeaderCheck, accounts: Accounts, txs: seq<Transaction>, i: nat): Verdict
    requires i < |txs|
  {
    var tx := txs[i];
    if check(tx).Some? then Rejected(check(tx).value)
    else if AccountOf(accounts, tx.signer).hasBytecode then Rejected(SignerAccountHasBytecode)
    else if Expected(accounts, txs, i) + 1 >= TWO_TO_THE_64 then Overflows
    else if tx.nonce != Expected(accounts, txs, i) then Rejected(NonceNotConsistent)
    else Accepted
  }

  /** The verdict on the first transaction at or after `i` that is not accepted. */
  function FirstFault(check: HeaderCheck, accounts: Accounts, txs: seq<Transaction>, i: nat): Verdict
    requires i <= |txs|
    decreases |txs| - i
  {
    if i == |txs| then Accepted
    else if Judge(check, accounts, txs, i).Accepted? then FirstFault(check, accounts, txs, i + 1)
    else Judge(check, accounts, txs, i)
  }

  ghost predicate Consistent(check: HeaderCheck, accounts: Accounts, txs: seq<Transaction>, i: nat)
    requires i < |txs|
  {
    && check(txs[i]).None?
    && !AccountOf(accounts, txs[i].signer).hasBytecode
    && txs[i].nonce == Expected(accounts, txs, i)
    && Expected(accounts, txs, i) + 1 < TWO_TO_THE_64
  }

  /** No fault from a position on means that every transaction from there on is consistent. */
  lemma {:induction false} NoFault(check: HeaderCheck, accounts: Accounts, txs: seq<Transaction>, i: nat)
    requires i <= |txs|
    ensures FirstFault(check, accounts, txs, i).Accepted? <==>
      forall j :: i <= j < |txs| ==> Consistent(check, accounts, txs, j)
    decreases |txs| - i
  {
    if i < |txs| {
      NoFault(check, accounts, txs, i + 1);
      assert Judge(check, accounts, txs, i).Accepted? <==> Consistent(check, accounts, txs, i);
    }
  }

  // ---------------------------------------------------------------- the loop

  /** The map holds, for every sender so far, the nonce its next transaction must have. */
  ghost predicate Tracks(nonces: map<Address, nat>, accounts: Accounts, txs: seq<Transaction>, n: nat)
    requires n <= |txs|
  {
    forall a :: (a in nonces <==> Sent(txs, n, a) > 0) &&
      (a in nonces ==>
        nonces[a] == AccountOf(accounts, a).nonce + Sent(txs, n, a) && !AccountOf(accounts, a).hasBytecode)
  }

  lemma {:induction false} TracksNext(nonces: map<Address, nat>, accounts: Accounts, txs: seq<Transaction>, n: nat)
    requires n < |txs| && Tracks(nonces, accounts, txs, n) && !AccountOf(accounts, txs[n].signer).hasBytecode
    ensures Tracks(nonces[txs[n].signer := Expected(accounts, txs, n) + 1], accounts, txs, n + 1)
  {
    var next := nonces[txs[n].signer := Expected(accounts, txs, n) + 1];
    forall a
      ensures a in next <==> Sent(txs, n + 1, a) > 0
      ensures a in next ==>
        next[a] == AccountOf(accounts, a).nonce + Sent(txs, n + 1, a) && !AccountOf(accounts, a).hasBytecode
    {
      assert a in nonces <==> Sent(txs, n, a) > 0;
    }
  }

  /** One pass with a map accepts exactly the lists whose nonces follow on, sender by sender. */
  method ValidateAll(check: HeaderCheck, accounts: Accounts, txs: seq<Transaction>) returns (r: Verdict)
    ensures r == FirstFault(check, accounts, txs, 0)
    ensures r.Accepted? <==> forall i :: 0 <= i < |txs| ==> Consistent(check, accounts, txs, i)
  {
    NoFault(check, accounts, txs, 0);
    var nonces: map<Address, nat> := map[];
    var i := 0;
    Empty(accounts, txs);
    while i < |txs|
      invariant i <= |txs| && Tracks(nonces, accounts, txs, i)
      invariant FirstFault(check, accounts, txs, 0) == FirstFault(check, accounts, txs, i)
    {
      var tx := txs[i];
      var faulty := check(tx);
      if faulty.Some? {
        return Rejected(faulty.value);
      }
      assert tx.signer in nonces <==> Sent(txs, i, tx.signer) > 0;
      var nonce: nat;
      if tx.signer in nonces {
        nonce := nonces[tx.signer];
        if nonce + 1 >= TWO_TO_THE_64 {
          return Overflows;
        }
      } else {
        var account := AccountOf(accounts, tx.signer);
        if account.hasBytecode {
          return Rejected(SignerAccountHasBytecode);
        }
        nonce := account.nonce;
        if nonce + 1 >= TWO_TO_THE_64 {
          return Overflows;
        }
      }
      TracksNext(nonces, accounts, txs, i);
      nonces := nonces[tx.signer := nonce + 1];
      if tx.nonce != nonce {
        return Rejected(NonceNotConsistent);
      }
      i := i + 1;
    }
    return Accepted;
  }

  lemma {:induction false} Empty(accounts: Accounts, txs: seq<Transaction>)
    ensures Tracks(map[], accounts, txs, 0)
  {
  }

  /** Accepted transactions of one sender carry distinct nonces, in the order they appear. */
  lemma {:induction false} SenderNoncesFollow(
    check: HeaderCheck, accounts: Accounts, txs: seq<Transaction>, i: nat, j: nat)
    requires i < j < |txs| && txs[i].signer == txs[j].signer
    requires Consistent(check, accounts, txs, i) && Consistent(check, accounts, txs, j)
    ensures txs[i].nonce < txs[j].nonce
  {
    SentGrows(txs, i + 1, j, txs[i].signer);
  }

  lemma {:induction false} SentGrows(txs: seq<Transaction>, m: nat, n: nat, a: Address)
    requires m <= n <= |txs|
    ensures Sent(txs, m, a) <= Sent(txs, n, a)
    decreases n - m
  {
    if m < n {
      SentGrows(txs, m, n - 1, a);
    }
  }
}
