/** The records the cache pushes to the persistence layer, what one bank
    flush and one account flush must contain, and the loop that emits one
    bank's accounts. Go map iteration order is unspecified, so a flush is
    characterised by its contents, never by its order. */
module Backup {
  import opened Ints
  import opened Ledger
  import opened Rotation

  /** `utils.BankBalance` as sent on the bank channel: id and balance. */
  datatype BankBalanceRecord = BankBalanceRecord(bankId: uint16, balance: int64)

  /** `utils.Balance` as sent on the account channel: bank id, account, balance. */
  datatype AccountBalanceRecord = AccountBalanceRecord(bankId: uint16, account: uint32, balance: int32)

  /** `order` lists every element of `keys` exactly once. */
  predicate Enumerates<K>(order: seq<K>, keys: set<K>) {
    && (forall i :: 0 <= i < |order| ==> order[i] in keys)
    && (forall k :: k in keys ==> k in order)
    && (forall i, j :: 0 <= i < j < |order| ==> order[i] != order[j])
  }

  /** `batch` is one bank flush of `banks`: one `{Id, Balance}` record per
      bank, the banks taken in the order `order`. */
  predicate IsBankFlush(batch: seq<BankBalanceRecord>, banks: Banks, order: seq<string>) {
    && Enumerates(order, banks.Keys)
    && |batch| == |order|
    && forall i :: 0 <= i < |batch| ==>
         batch[i] == BankBalanceRecord(banks[order[i]].id, banks[order[i]].balance)
  }

  /** `batch` is one account flush of the bank with id `id` and account
      table `accs`: exactly one `{bank Id, account, balance}` record per
      account, in some order. */
  predicate IsAccountFlush(batch: seq<AccountBalanceRecord>, id: uint16, accs: map<uint32, int32>) {
    && (forall i :: 0 <= i < |batch| ==>
          && batch[i].bankId == id
          && batch[i].account in accs
          && batch[i].balance == accs[batch[i].account])
    && (forall a :: a in accs ==> exists i :: 0 <= i < |batch| && batch[i].account == a)
    && (forall i, j :: 0 <= i < j < |batch| ==> batch[i].account != batch[j].account)
  }

  /** The loop of `backupDatabaseAccountBalance` over one bank's account
      table: one record per account, pushed one by one. */
  method EmitAccounts(bankId: uint16, accs: map<uint32, int32>) returns (batch: seq<AccountBalanceRecord>)
    ensures IsAccountFlush(batch, bankId, accs)
  {
    var rest := accs.Keys;
    batch := [];
    while rest != {}
      invariant rest <= accs.Keys
      invariant forall i :: 0 <= i < |batch| ==>
        && batch[i].bankId == bankId
        && batch[i].account in accs && batch[i].account !in rest
        && batch[i].balance == accs[batch[i].account]
      invariant forall a :: a in accs && a !in rest ==> exists i :: 0 <= i < |batch| && batch[i].account == a
      invariant forall i, j :: 0 <= i < j < |batch| ==> batch[i].account != batch[j].account
      decreases rest
    {
      var account :| account in rest;
      ghost var prev := batch;
      batch := batch + [AccountBalanceRecord(bankId, account, accs[account])];
      forall a | a in accs && a !in rest - {account}
        ensures exists i :: 0 <= i < |batch| && batch[i].account == a
      {
        if a == account {
          assert batch[|prev|].account == a;
        } else {
          var i :| 0 <= i < |prev| && prev[i].account == a;
          assert batch[i] == prev[i];
        }
      }
      rest := rest - {account};
    }
  }

  /** A full turn of account flushes over a ring that holds every bank emits
      every account of every bank with its current balance: nothing is left
      behind at shutdown. */
  lemma DrainEmitsEveryAccount(banks: Banks, names: seq<string>, c: nat, batches: seq<seq<AccountBalanceRecord>>)
    requires c < |names|
    requires forall n :: n in names <==> n in banks
    requires |batches| == |names|
    requires forall k :: 0 <= k < |batches| ==>
      var b := banks[names[Turn(c, |names|)[k]]]; IsAccountFlush(batches[k], b.id, b.accounts)
    ensures forall n, a :: n in banks && a in banks[n].accounts ==>
      (exists k, i :: 0 <= k < |batches| && 0 <= i < |batches[k]|
         && batches[k][i] == AccountBalanceRecord(banks[n].id, a, banks[n].accounts[a]))
  {
    var turn := Turn(c, |names|);
    FullTurn(c, |names|);
    forall n, a | n in banks && a in banks[n].accounts
      ensures exists k, i :: 0 <= k < |batches| && 0 <= i < |batches[k]|
                && batches[k][i] == AccountBalanceRecord(banks[n].id, a, banks[n].accounts[a])
    {
      var p :| 0 <= p < |names| && names[p] == n;
      assert p in turn;
      var k :| 0 <= k < |turn| && turn[k] == p;
      assert IsAccountFlush(batches[k], banks[n].id, banks[n].accounts);
      var i :| 0 <= i < |batches[k]| && batches[k][i].account == a;
    }
  }
}
