/** What the two bootstrap loops of `New` compute from the rows the
    persistence layer streams in: bank rows first, then account rows. */
module Bootstrap {
  import opened Ints
  import opened Ledger

  /** A row of the bank stream (`utils.BankBalance`: name, id, balance). */
  datatype BankRow = BankRow(name: string, id: uint16, balance: int64)

  /** A row of the account stream (`utils.Balance`: bank name, account, balance). */
  datatype AccountRow = AccountRow(bankName: string, account: uint32, balance: int32)

  /** One pass of the bank loop: a bank seen for the first time is created
      with the row's id, balance 0 and no accounts; then the row's balance is
      stored over whatever the bank held. */
  function StoreBankRow(banks: Banks, row: BankRow): (r: Banks)
    ensures r.Keys == banks.Keys + {row.name}
    ensures r[row.name].balance == row.balance
    ensures row.name in banks ==> r[row.name].id == banks[row.name].id && r[row.name].accounts == banks[row.name].accounts
    ensures row.name !in banks ==> r[row.name].id == row.id && r[row.name].accounts == map[]
    ensures forall n :: n in banks && n != row.name ==> r[n] == banks[n]
  {
    var b := if row.name in banks then banks[row.name] else BankState(row.id, 0, map[]);
    banks[row.name := b.(balance := row.balance)]
  }

  /** The bank map after the bank loop has consumed `rows`, in stream order. */
  function LoadBanks(rows: seq<BankRow>): (r: Banks)
    ensures forall i :: 0 <= i < |rows| ==> rows[i].name in r
  {
    if rows == [] then map[]
    else StoreBankRow(LoadBanks(rows[..|rows| - 1]), rows[|rows| - 1])
  }

  /** Every account row names a bank that is in `banks`. */
  predicate RowsKnown(banks: Banks, rows: seq<AccountRow>) {
    forall i :: 0 <= i < |rows| ==> rows[i].bankName in banks
  }

  /** The bank map after the account loop has consumed `rows`: each row is
      added (not stored) to its account with `updateAccount`. The bank set
      never changes, so every later row still finds its bank. */
  function LoadAccounts(banks: Banks, rows: seq<AccountRow>): (r: Banks)
    requires RowsKnown(banks, rows)
    ensures r.Keys == banks.Keys
  {
    if rows == [] then banks
    else
      var last := rows[|rows| - 1];
      AddToBankAccount(LoadAccounts(banks, rows[..|rows| - 1]), last.bankName, last.account, last.balance)
  }

  /** The banks after bootstrap are exactly the names in the bank stream. */
  lemma {:induction false} LoadBanksKeys(rows: seq<BankRow>)
    ensures LoadBanks(rows).Keys == set r | r in rows :: r.name
  {
    if rows != [] {
      var init := rows[..|rows| - 1];
      LoadBanksKeys(init);
      assert rows == init + [rows[|rows| - 1]];
    }
  }

  /** The bank loop never creates an account. */
  lemma {:induction false} LoadBanksNoAccounts(rows: seq<BankRow>)
    ensures forall n :: n in LoadBanks(rows) ==> LoadBanks(rows)[n].accounts == map[]
  {
    if rows != [] {
      LoadBanksNoAccounts(rows[..|rows| - 1]);
    }
  }

  /** The last row for a name wins: the bank's balance is that row's balance. */
  lemma {:induction false} LoadBanksLastWins(rows: seq<BankRow>, i: nat)
    requires i < |rows|
    requires forall j :: i < j < |rows| ==> rows[j].name != rows[i].name
    ensures rows[i].name in LoadBanks(rows)
    ensures LoadBanks(rows)[rows[i].name].balance == rows[i].balance
  {
    if i < |rows| - 1 {
      LoadBanksLastWins(rows[..|rows| - 1], i);
    }
  }

  /** The first row for a name fixes the bank's id; later rows never change it. */
  lemma {:induction false} LoadBanksFirstId(rows: seq<BankRow>, i: nat)
    requires i < |rows|
    requires forall j :: 0 <= j < i ==> rows[j].name != rows[i].name
    ensures rows[i].name in LoadBanks(rows)
    ensures LoadBanks(rows)[rows[i].name].id == rows[i].id
  {
    var init := rows[..|rows| - 1];
    if i < |rows| - 1 {
      LoadBanksFirstId(init, i);
    } else {
      LoadBanksKeys(init);
    }
  }

  /** A stream with one row per bank reproduces every row exactly. */
  lemma LoadBanksDistinct(rows: seq<BankRow>)
    requires forall i, j :: 0 <= i < j < |rows| ==> rows[i].name != rows[j].name
    ensures forall i :: 0 <= i < |rows| ==>
      rows[i].name in LoadBanks(rows) && LoadBanks(rows)[rows[i].name] == BankState(rows[i].id, rows[i].balance, map[])
  {
    LoadBanksNoAccounts(rows);
    forall i | 0 <= i < |rows|
      ensures rows[i].name in LoadBanks(rows)
      ensures LoadBanks(rows)[rows[i].name] == BankState(rows[i].id, rows[i].balance, map[])
    {
      LoadBanksLastWins(rows, i);
      LoadBanksFirstId(rows, i);
    }
  }

  /** The account numbers that `rows` name under bank `n`. */
  function RowAccounts(rows: seq<AccountRow>, n: string): set<uint32> {
    set r | r in rows && r.bankName == n :: r.account
  }

  lemma RowAccountsSnoc(rows: seq<AccountRow>, row: AccountRow, n: string)
    ensures RowAccounts(rows + [row], n) == RowAccounts(rows, n) + (if row.bankName == n then {row.account} else {})
  {
    assert forall r :: r in rows + [row] <==> r in rows || r == row;
  }

  /** One `updateAccount` on bank `name` keeps every id and bank balance and
      adds at most the account `a`, under `name` only. */
  lemma AddToBankAccountKeys(banks: Banks, name: string, a: uint32, d: int32, n: string)
    requires name in banks && n in banks
    ensures var r := AddToBankAccount(banks, name, a, d);
      && r[n].id == banks[n].id && r[n].balance == banks[n].balance
      && r[n].accounts.Keys == banks[n].accounts.Keys + (if n == name then {a} else {})
  {
  }

  /** The account loop, seen from one bank `n`: its id and balance do not
      change, and its accounts afterwards are the ones it had plus the ones
      its rows name. */
  lemma {:induction false} LoadAccountsFrameAt(banks: Banks, rows: seq<AccountRow>, n: string)
    requires RowsKnown(banks, rows) && n in banks
    ensures var b := LoadAccounts(banks, rows)[n];
      && b.id == banks[n].id && b.balance == banks[n].balance
      && b.accounts.Keys == banks[n].accounts.Keys + RowAccounts(rows, n)
  {
    if rows != [] {
      var init, last := rows[..|rows| - 1], rows[|rows| - 1];
      LoadAccountsFrameAt(banks, init, n);
      assert rows == init + [last];
      RowAccountsSnoc(init, last, n);
      AddToBankAccountKeys(LoadAccounts(banks, init), last.bankName, last.account, last.balance, n);
    }
  }

  /** The account loop changes no id and no bank balance, and the accounts
      of each bank afterwards are the ones it had plus the ones its rows name. */
  lemma LoadAccountsFrame(banks: Banks, rows: seq<AccountRow>)
    requires RowsKnown(banks, rows)
    ensures forall n :: n in banks ==>
      && LoadAccounts(banks, rows)[n].id == banks[n].id
      && LoadAccounts(banks, rows)[n].balance == banks[n].balance
      && LoadAccounts(banks, rows)[n].accounts.Keys == banks[n].accounts.Keys + RowAccounts(rows, n)
  {
    forall n | n in banks
      ensures LoadAccounts(banks, rows)[n].id == banks[n].id
      ensures LoadAccounts(banks, rows)[n].balance == banks[n].balance
      ensures LoadAccounts(banks, rows)[n].accounts.Keys == banks[n].accounts.Keys + RowAccounts(rows, n)
    {
      LoadAccountsFrameAt(banks, rows, n);
    }
  }

  /** Rows for distinct (bank, account) pairs, none of them already present,
      load each account with exactly the row's balance. */
  lemma {:induction false} LoadAccountsDistinct(banks: Banks, rows: seq<AccountRow>)
    requires RowsKnown(banks, rows)
    requires forall i :: 0 <= i < |rows| ==> rows[i].account !in banks[rows[i].bankName].accounts
    requires forall i, j :: 0 <= i < j < |rows| ==>
      (rows[i].bankName, rows[i].account) != (rows[j].bankName, rows[j].account)
    ensures forall i :: 0 <= i < |rows| ==>
      var b := LoadAccounts(banks, rows)[rows[i].bankName];
      rows[i].account in b.accounts && b.accounts[rows[i].account] == rows[i].balance
  {
    if rows != [] {
      var init, last := rows[..|rows| - 1], rows[|rows| - 1];
      var before, after := LoadAccounts(banks, init), LoadAccounts(banks, rows);
      LoadAccountsDistinct(banks, init);
      LoadAccountsFrameAt(banks, init, last.bankName);
      assert after == AddToBankAccount(before, last.bankName, last.account, last.balance);
      assert last.account !in RowAccounts(init, last.bankName) by {
        forall j | 0 <= j < |init|
          ensures (init[j].bankName, init[j].account) != (last.bankName, last.account)
        {
          assert init[j] == rows[j];
        }
      }
      forall i | 0 <= i < |rows|
        ensures rows[i].account in after[rows[i].bankName].accounts
        ensures after[rows[i].bankName].accounts[rows[i].account] == rows[i].balance
      {
        if i < |init| {
          assert rows[i] == init[i];
        }
      }
    }
  }

  /** Bootstrap from one row per bank and one row per (bank, account) pair
      reproduces every supplied balance and id exactly, and loads no other
      account. */
  lemma BootstrapReproducesRows(bankRows: seq<BankRow>, accRows: seq<AccountRow>)
    requires forall i, j :: 0 <= i < j < |bankRows| ==> bankRows[i].name != bankRows[j].name
    requires forall i, j :: 0 <= i < j < |accRows| ==>
      (accRows[i].bankName, accRows[i].account) != (accRows[j].bankName, accRows[j].account)
    requires RowsKnown(LoadBanks(bankRows), accRows)
    ensures var r := LoadAccounts(LoadBanks(bankRows), accRows);
      && (forall i :: 0 <= i < |bankRows| ==>
            && bankRows[i].name in r
            && r[bankRows[i].name].id == bankRows[i].id
            && r[bankRows[i].name].balance == bankRows[i].balance)
      && (forall i :: 0 <= i < |accRows| ==>
            var b := r[accRows[i].bankName];
            accRows[i].account in b.accounts && b.accounts[accRows[i].account] == accRows[i].balance)
      && (forall n, a :: n in r && a in r[n].accounts ==>
            exists i :: 0 <= i < |accRows| && accRows[i].bankName == n && accRows[i].account == a)
  {
    var banks := LoadBanks(bankRows);
    LoadBanksDistinct(bankRows);
    LoadBanksNoAccounts(bankRows);
    LoadAccountsFrame(banks, accRows);
    LoadAccountsDistinct(banks, accRows);
  }
}
