/** The in-memory balance cache: the bank map, the rotation ring, the
    transaction counter, and the operations that bootstrap, update and back
    them up, run one at a time. */
module Memstore {
  import opened Ints
  import opened Ledger
  import opened Bootstrap
  import opened Rotation
  import opened Backup

  class Cache {
    /** `Balances.Banks`: bank name -> bank record. */
    var banks: Banks
    /** `List`: the rotation ring of bank names. */
    const list: Ring
    /** The package-level transaction `counter`. */
    var counter: uint64

    /** The ring is well formed and holds exactly the banks of the map. */
    ghost predicate Valid()
      reads this, list
    {
      && list.Valid()
      && (forall n :: n in list.names <==> n in banks)
    }

    /** `New`: consume the bank rows (create or overwrite, append to the
        ring), then the account rows (add into the owning bank's table).
        Every account row must name a bank of the bank rows: the lookup of an
        absent bank dereferences nil. */
    constructor New(bankRows: seq<BankRow>, accRows: seq<AccountRow>)
      requires RowsKnown(LoadBanks(bankRows), accRows)
      ensures Valid() && fresh(list)
      ensures banks == LoadAccounts(LoadBanks(bankRows), accRows)
      ensures |list.names| == |bankRows|
      ensures forall i :: 0 <= i < |bankRows| ==> list.names[i] == bankRows[i].name
      ensures list.cursor == 0
      ensures counter == 0
    {
      banks := map[];
      list := new Ring();
      counter := 0;
      new;
      LoadBankRows(bankRows);
      LoadAccountRows(accRows);
    }

    /** The bank loop of `New`, on an empty cache. */
    method LoadBankRows(bankRows: seq<BankRow>)
      requires Valid() && banks == map[] && list.names == [] && list.cursor == 0
      modifies this, list
      ensures Valid()
      ensures banks == LoadBanks(bankRows)
      ensures |list.names| == |bankRows|
      ensures forall i :: 0 <= i < |bankRows| ==> list.names[i] == bankRows[i].name
      ensures list.cursor == 0 && counter == old(counter)
    {
      var i := 0;
      while i < |bankRows|
        invariant 0 <= i <= |bankRows|
        invariant banks == LoadBanks(bankRows[..i])
        invariant Valid() && list.cursor == 0 && counter == old(counter)
        invariant |list.names| == i
        invariant forall k :: 0 <= k < i ==> list.names[k] == bankRows[k].name
      {
        assert bankRows[..i + 1][..i] == bankRows[..i];
        StoreBank(bankRows[i]);
        i := i + 1;
      }
      assert bankRows[..i] == bankRows;
    }

    /** The account loop of `New`: every row is added to its bank's table. */
    method LoadAccountRows(accRows: seq<AccountRow>)
      requires Valid() && RowsKnown(banks, accRows)
      modifies this
      ensures Valid()
      ensures banks == LoadAccounts(old(banks), accRows)
      ensures counter == old(counter)
    {
      var j := 0;
      while j < |accRows|
        invariant 0 <= j <= |accRows|
        invariant banks == LoadAccounts(old(banks), accRows[..j])
        invariant Valid() && counter == old(counter)
      {
        var row := accRows[j];
        assert accRows[..j + 1][..j] == accRows[..j];
        UpdateAccount(row.bankName, row.account, row.balance);
        j := j + 1;
      }
      assert accRows[..j] == accRows;
    }

    /** One pass of the bank loop of `New`: create the bank if it is new,
        store the row's balance, and append its name to the ring. */
    method StoreBank(row: BankRow)
      requires Valid()
      modifies this, list
      ensures Valid()
      ensures banks == StoreBankRow(old(banks), row)
      ensures list.names == old(list.names) + [row.name]
      ensures list.cursor == old(list.cursor) && counter == old(counter)
    {
      if row.name !in banks {
        banks := banks[row.name := BankState(row.id, 0, map[])];
      }
      banks := banks[row.name := banks[row.name].(balance := row.balance)];
      list.Add(row.name);
    }

    /** `updateAccount` on the account table of bank `name`: create account
        `accNum` at 0 if it is missing, then add `balance` to it. */
    method UpdateAccount(name: string, accNum: uint32, balance: int32)
      requires Valid() && name in banks
      modifies this
      ensures Valid()
      ensures banks == AddToBankAccount(old(banks), name, accNum, balance)
      ensures counter == old(counter)
    {
      var accs := banks[name].accounts;
      ghost var want := AddToAccount(accs, accNum, balance);
      if accNum !in accs {
        accs := accs[accNum := 0];
      }
      accs := accs[accNum := Add32(accs[accNum], balance)];
      assert accs == want;
      banks := banks[name := banks[name].(accounts := accs)];
    }

    /** `UpdateBalances`: count the transfer, then apply its four counter
        updates. Both banks must exist: an absent one is a nil dereference,
        reached after the counter was already incremented. */
    method UpdateBalances(t: SRBalance)
      requires Valid() && t.sender.name in banks && t.receiver.name in banks
      modifies this
      ensures Valid()
      ensures banks == ApplyTransfer(old(banks), t)
      ensures counter == Inc64(old(counter))
    {
      counter := Inc64(counter);
      var s, r := t.sender.name, t.receiver.name;
      ghost var b0 := banks;
      AddToBalance(s, -(t.amount as int));
      ghost var b1 := banks;
      AddToBalance(r, t.amount);
      ghost var b2 := banks;
      UpdateAccount(s, t.sender.account, Neg32(t.amount));
      ghost var b3 := banks;
      UpdateAccount(r, t.receiver.account, t.amount);
      ApplyTransferSteps(b0, t, b1, b2, b3);
    }

    /** `atomic.AddInt64` on the balance of bank `name`. */
    method AddToBalance(name: string, d: int64)
      requires Valid() && name in banks
      modifies this
      ensures Valid()
      ensures banks == AddToBankBalance(old(banks), name, d)
      ensures counter == old(counter)
    {
      banks := banks[name := banks[name].(balance := Add64(banks[name].balance, d))];
    }

    /** `backupDatabaseBankBalances`: one `{Id, Balance}` record per bank, in
        map iteration order; nothing in the cache changes. */
    method BackupBankBalances() returns (batch: seq<BankBalanceRecord>, ghost order: seq<string>)
      ensures IsBankFlush(batch, banks, order)
    {
      var rest := banks.Keys;
      batch, order := [], [];
      while rest != {}
        invariant rest <= banks.Keys
        invariant forall i :: 0 <= i < |order| ==> order[i] in banks && order[i] !in rest
        invariant forall n :: n in banks && n !in rest ==> n in order
        invariant forall i, j :: 0 <= i < j < |order| ==> order[i] != order[j]
        invariant |batch| == |order|
        invariant forall i :: 0 <= i < |batch| ==>
          batch[i] == BankBalanceRecord(banks[order[i]].id, banks[order[i]].balance)
        decreases rest
      {
        var name :| name in rest;
        batch := batch + [BankBalanceRecord(banks[name].id, banks[name].balance)];
        order := order + [name];
        rest := rest - {name};
      }
    }

    /** `backupDatabaseAccountBalance`: move the ring to the next bank, then
        emit one record per account of that bank. */
    method BackupAccountBalance() returns (batch: seq<AccountBalanceRecord>)
      requires Valid() && list.names != []
      modifies list
      ensures Valid()
      ensures list.names == old(list.names)
      ensures list.cursor == Advance(old(list.cursor), |list.names|)
      ensures var b := banks[list.Current()]; IsAccountFlush(batch, b.id, b.accounts)
    {
      list.Next();
      var name := list.Current();
      var bankId := banks[name].id;
      batch := EmitAccounts(bankId, banks[name].accounts);
    }

    /** The quit branch of `manageDatabaseBackups`: one bank flush, then
        `Length` account flushes, one per ring position. The account flushes
        visit the ring positions after the cursor in ring order, each once,
        and leave the cursor where it was; every account of every bank is
        emitted with its current balance. */
    method Shutdown() returns (bankBatch: seq<BankBalanceRecord>, ghost order: seq<string>,
                               accBatches: seq<seq<AccountBalanceRecord>>)
      requires Valid() && |list.names| < 0x1_0000
      modifies list
      ensures Valid()
      ensures list.names == old(list.names) && list.cursor == old(list.cursor)
      ensures IsBankFlush(bankBatch, banks, order)
      ensures |accBatches| == |list.names|
      ensures list.names != [] ==> forall k :: 0 <= k < |accBatches| ==>
        var b := banks[list.names[Turn(list.cursor, |list.names|)[k]]]; IsAccountFlush(accBatches[k], b.id, b.accounts)
      ensures forall n, a :: n in banks && a in banks[n].accounts ==>
        (exists k, i :: 0 <= k < |accBatches| && 0 <= i < |accBatches[k]|
           && accBatches[k][i] == AccountBalanceRecord(banks[n].id, a, banks[n].accounts[a]))
    {
      bankBatch, order := BackupBankBalances();
      accBatches := [];
      var length := list.Length();
      if length == 0 {
        return;
      }
      ghost var start := list.cursor;
      var i := 0;
      while i < length
        invariant 0 <= i <= length
        invariant Valid() && list.names == old(list.names)
        invariant list.cursor == AdvanceN(start, length, i)
        invariant |accBatches| == i
        invariant forall k :: 0 <= k < i ==>
          var b := banks[list.names[Turn(start, length)[k]]]; IsAccountFlush(accBatches[k], b.id, b.accounts)
      {
        var batch := BackupAccountBalance();
        accBatches := accBatches + [batch];
        i := i + 1;
      }
      FullTurn(start, length);
      DrainEmitsEveryAccount(banks, list.names, start, accBatches);
    }
  }

  /** A scenario: banks Alpha (id 1) and Beta (id 2) at balance 0
      with no accounts, then 50 from Alpha account 100 to Beta account 200. */
  method AlphaBetaScenario()
  {
    var c := new Cache.New([BankRow("Alpha", 1, 0), BankRow("Beta", 2, 0)], []);
    assert c.banks == map["Alpha" := BankState(1, 0, map[]), "Beta" := BankState(2, 0, map[])];
    c.UpdateBalances(SRBalance(Party("Alpha", 100), Party("Beta", 200), 50));
    assert c.banks["Alpha"] == BankState(1, -50, map[100 := -50]);
    assert c.banks["Beta"] == BankState(2, 50, map[200 := 50]);
    assert c.counter == 1;
  }
}
