/** The balance ledger as a value: bank name -> bank record, and the effect of
    one transfer on it. The `Memstore.Cache` class is proved against these
    functions. */
module Ledger {
  import opened Ints

  /** One bank: the id it was created with, its 64-bit balance counter and its
      account table (account number -> 32-bit balance counter). */
  datatype BankState = BankState(id: uint16, balance: int64, accounts: map<uint32, int32>)

  type Banks = map<string, BankState>

  /** One side of a transfer: bank name and account number. */
  datatype Party = Party(name: string, account: uint32)

  /** A transfer request: `amount` moves from sender to receiver. */
  datatype SRBalance = SRBalance(sender: Party, receiver: Party, amount: int32)

  /** The same transfer in the opposite direction. */
  function Reverse(t: SRBalance): SRBalance {
    SRBalance(t.receiver, t.sender, t.amount)
  }

  /** The balance an account is read as: an account not yet created counts as 0. */
  function AccountOrZero(accs: map<uint32, int32>, n: uint32): int32 {
    if n in accs then accs[n] else 0
  }

  /** The effect of `updateAccount(accs, n, d)`: account `n` is created at 0
      when absent, then `d` is added to it; no other key or value changes. */
  function AddToAccount(accs: map<uint32, int32>, n: uint32, d: int32): (r: map<uint32, int32>)
    ensures r.Keys == accs.Keys + {n}
    ensures r[n] == Add32(AccountOrZero(accs, n), d)
    ensures forall k :: k in accs && k != n ==> r[k] == accs[k]
  {
    accs[n := Add32(AccountOrZero(accs, n), d)]
  }

  /** `atomic.AddInt64(bank.Balance, d)` on the bank called `name`. */
  function AddToBankBalance(banks: Banks, name: string, d: int64): (r: Banks)
    requires name in banks
    ensures r.Keys == banks.Keys
    ensures r[name].balance == Add64(banks[name].balance, d)
    ensures r[name].id == banks[name].id && r[name].accounts == banks[name].accounts
    ensures forall n :: n in banks && n != name ==> r[n] == banks[n]
  {
    banks[name := banks[name].(balance := Add64(banks[name].balance, d))]
  }

  /** `updateAccount(bank.Accs, n, d)` on the bank called `name`. */
  function AddToBankAccount(banks: Banks, name: string, n: uint32, d: int32): (r: Banks)
    requires name in banks
    ensures r.Keys == banks.Keys
    ensures r[name].accounts == AddToAccount(banks[name].accounts, n, d)
    ensures r[name].id == banks[name].id && r[name].balance == banks[name].balance
    ensures forall k :: k in banks && k != name ==> r[k] == banks[k]
  {
    banks[name := banks[name].(accounts := AddToAccount(banks[name].accounts, n, d))]
  }

  /** `UpdateBalances`: the four counter updates, in the order the source
      makes them (sender bank, receiver bank, sender account, receiver
      account). When sender and receiver are the same bank the updates land
      on the same record one after the other. */
  function ApplyTransfer(banks: Banks, t: SRBalance): (r: Banks)
    requires t.sender.name in banks && t.receiver.name in banks
    ensures r.Keys == banks.Keys
  {
    var s, r := t.sender.name, t.receiver.name;
    var b1 := AddToBankBalance(banks, s, -(t.amount as int));
    var b2 := AddToBankBalance(b1, r, t.amount);
    var b3 := AddToBankAccount(b2, s, t.sender.account, Neg32(t.amount));
    AddToBankAccount(b3, r, t.receiver.account, t.amount)
  }

  /** `ApplyTransfer` as the four updates named one by one. */
  lemma ApplyTransferSteps(banks: Banks, t: SRBalance, b1: Banks, b2: Banks, b3: Banks)
    requires t.sender.name in banks && t.receiver.name in banks
    requires b1 == AddToBankBalance(banks, t.sender.name, -(t.amount as int))
    requires b2 == AddToBankBalance(b1, t.receiver.name, t.amount)
    requires b3 == AddToBankAccount(b2, t.sender.name, t.sender.account, Neg32(t.amount))
    ensures ApplyTransfer(banks, t) == AddToBankAccount(b3, t.receiver.name, t.receiver.account, t.amount)
  {
  }

  /** Sum of all bank balances, as an unbounded integer. */
  ghost function TotalBalance(banks: Banks): int
    decreases |banks|
  {
    if banks == map[] then 0
    else
      var n :| n in banks;
      banks[n].balance + TotalBalance(banks - {n})
  }

  /** The total splits into any one bank plus the rest. */
  lemma {:induction false} TotalRemove(banks: Banks, k: string)
    requires k in banks
    ensures TotalBalance(banks) == banks[k].balance + TotalBalance(banks - {k})
    decreases |banks|
  {
    var n :| n in banks && TotalBalance(banks) == banks[n].balance + TotalBalance(banks - {n});
    if n != k {
      var rest := banks - {n};
      TotalRemove(rest, k);
      TotalRemove(banks - {k}, n);
      assert rest - {k} == (banks - {k}) - {n};
    }
  }

  /** Replacing one bank record changes the total by the change of that
      record's balance, and by nothing else. */
  lemma TotalUpdate(banks: Banks, k: string, b: BankState)
    requires k in banks
    ensures TotalBalance(banks[k := b]) == TotalBalance(banks) - banks[k].balance + b.balance
  {
    TotalRemove(banks, k);
    TotalRemove(banks[k := b], k);
    assert banks[k := b] - {k} == banks - {k};
  }

  /** A transfer between two different banks: the sender bank goes down by the
      amount and the receiver bank up by it, the sender account goes down and
      the receiver account up (each created at 0 first if it was missing),
      all in wrapping arithmetic; ids do not change. */
  lemma TransferBetweenBanks(banks: Banks, t: SRBalance)
    requires t.sender.name in banks && t.receiver.name in banks
    requires t.sender.name != t.receiver.name
    ensures var r, s, v := ApplyTransfer(banks, t), banks[t.sender.name], banks[t.receiver.name];
      && r[t.sender.name] == BankState(s.id, Add64(s.balance, -(t.amount as int)),
           s.accounts[t.sender.account := Add32(AccountOrZero(s.accounts, t.sender.account), Neg32(t.amount))])
      && r[t.receiver.name] == BankState(v.id, Add64(v.balance, t.amount),
           v.accounts[t.receiver.account := Add32(AccountOrZero(v.accounts, t.receiver.account), t.amount)])
  {
  }

  /** The same without overflow: the sender bank and account go down by
      exactly the amount and the receiver bank and account go up by it. */
  lemma TransferBetweenBanksExact(banks: Banks, t: SRBalance)
    requires t.sender.name in banks && t.receiver.name in banks
    requires t.sender.name != t.receiver.name
    requires var s, v := banks[t.sender.name], banks[t.receiver.name];
      && Fits64(s.balance - t.amount) && Fits64(v.balance + t.amount)
      && Fits32(AccountOrZero(s.accounts, t.sender.account) - t.amount)
      && Fits32(AccountOrZero(v.accounts, t.receiver.account) + t.amount)
    ensures var r, s, v := ApplyTransfer(banks, t), banks[t.sender.name], banks[t.receiver.name];
      && r[t.sender.name].balance == s.balance - t.amount
      && r[t.receiver.name].balance == v.balance + t.amount
      && r[t.sender.name].accounts[t.sender.account] == AccountOrZero(s.accounts, t.sender.account) - t.amount
      && r[t.receiver.name].accounts[t.receiver.account] == AccountOrZero(v.accounts, t.receiver.account) + t.amount
  {
    TransferBetweenBanks(banks, t);
    var s := banks[t.sender.name];
    Add32Neg(AccountOrZero(s.accounts, t.sender.account), t.amount);
  }

  /** A transfer inside one bank leaves the bank balance where it was (the
      two wrapping adds cancel); the sender account goes down and the
      receiver account up, and a transfer from an account to itself leaves its
      value unchanged but creates it at 0 if it was missing. */
  lemma TransferWithinBank(banks: Banks, t: SRBalance)
    requires t.sender.name in banks && t.sender.name == t.receiver.name
    ensures var r, b := ApplyTransfer(banks, t), banks[t.sender.name];
      && r[t.sender.name].id == b.id
      && r[t.sender.name].balance == b.balance
      && (t.sender.account != t.receiver.account ==>
            r[t.sender.name].accounts ==
              b.accounts[t.sender.account := Add32(AccountOrZero(b.accounts, t.sender.account), Neg32(t.amount))]
                        [t.receiver.account := Add32(AccountOrZero(b.accounts, t.receiver.account), t.amount)])
      && (t.sender.account == t.receiver.account ==>
            r[t.sender.name].accounts == b.accounts[t.sender.account := AccountOrZero(b.accounts, t.sender.account)])
  {
    var b := banks[t.sender.name];
    Add64Undo(b.balance, t.amount);
    Add32Undo(AccountOrZero(b.accounts, t.sender.account), t.amount);
  }

  /** A transfer never adds or removes a bank, never changes an id, leaves
      every bank other than the two named ones as it was, and only adds
      account keys (the two named accounts exist afterwards): every account
      other than the two named ones keeps its value. */
  lemma TransferFrame(banks: Banks, t: SRBalance)
    requires t.sender.name in banks && t.receiver.name in banks
    ensures var r := ApplyTransfer(banks, t);
      && r.Keys == banks.Keys
      && (forall n :: n in banks && n != t.sender.name && n != t.receiver.name ==> r[n] == banks[n])
      && (forall n :: n in banks ==> r[n].id == banks[n].id)
      && (forall n :: n in banks ==> banks[n].accounts.Keys <= r[n].accounts.Keys)
      && t.sender.account in r[t.sender.name].accounts
      && t.receiver.account in r[t.receiver.name].accounts
      && (forall n, k :: n in banks && k in banks[n].accounts
            && (n, k) != (t.sender.name, t.sender.account) && (n, k) != (t.receiver.name, t.receiver.account)
            ==> r[n].accounts[k] == banks[n].accounts[k])
  {
  }

  /** The sender's half of a transfer, on the sender's bank record. */
  function Debit(b: BankState, n: uint32, a: int32): BankState {
    b.(balance := Add64(b.balance, -(a as int)), accounts := AddToAccount(b.accounts, n, Neg32(a)))
  }

  /** The receiver's half of a transfer, on the receiver's bank record. */
  function Credit(b: BankState, n: uint32, a: int32): BankState {
    b.(balance := Add64(b.balance, a), accounts := AddToAccount(b.accounts, n, a))
  }

  /** The four updates of a transfer, regrouped: first the sender's record is
      debited, then the (possibly same, already debited) receiver's record is
      credited. */
  lemma TransferAsDebitCredit(banks: Banks, t: SRBalance)
    requires t.sender.name in banks && t.receiver.name in banks
    ensures var b1 := banks[t.sender.name := Debit(banks[t.sender.name], t.sender.account, t.amount)];
      ApplyTransfer(banks, t) == b1[t.receiver.name := Credit(b1[t.receiver.name], t.receiver.account, t.amount)]
  {
  }

  /** A transfer inside one bank is a debit then a credit of its record. */
  lemma TransferOnOneRecord(banks: Banks, t: SRBalance)
    requires t.sender.name in banks && t.sender.name == t.receiver.name
    ensures var n := t.sender.name;
      ApplyTransfer(banks, t) == banks[n := Credit(Debit(banks[n], t.sender.account, t.amount), t.receiver.account, t.amount)]
  {
    TransferAsDebitCredit(banks, t);
  }

  /** A transfer between two different banks debits the sender's record and
      credits the receiver's. */
  lemma TransferOnTwoRecords(banks: Banks, t: SRBalance)
    requires t.sender.name in banks && t.receiver.name in banks && t.sender.name != t.receiver.name
    ensures var s, r := t.sender.name, t.receiver.name;
      ApplyTransfer(banks, t)
        == banks[s := Debit(banks[s], t.sender.account, t.amount)][r := Credit(banks[r], t.receiver.account, t.amount)]
  {
    TransferAsDebitCredit(banks, t);
  }

  /** Two `updateAccount` calls on one account table commute. */
  lemma AddToAccountCommute(accs: map<uint32, int32>, n1: uint32, a1: int32, n2: uint32, a2: int32)
    ensures AddToAccount(AddToAccount(accs, n1, a1), n2, a2) == AddToAccount(AddToAccount(accs, n2, a2), n1, a1)
  {
    if n1 == n2 {
      Add32Commute(AccountOrZero(accs, n1), a1, a2);
    }
  }

  /** Two credits to one record commute. */
  lemma CreditCommute(b: BankState, n1: uint32, a1: int32, n2: uint32, a2: int32)
    ensures Credit(Credit(b, n1, a1), n2, a2) == Credit(Credit(b, n2, a2), n1, a1)
  {
    Add64Commute(b.balance, a1, a2);
    AddToAccountCommute(b.accounts, n1, a1, n2, a2);
  }

  /** Crediting back what was debited from the same account leaves only the
      account's creation behind. */
  lemma DebitThenCredit(b: BankState, n: uint32, a: int32)
    ensures Credit(Debit(b, n, a), n, a) == Credit(b, n, 0)
  {
    Add64Undo(b.balance, a);
    Add32Undo(AccountOrZero(b.accounts, n), a);
  }

  /** Debiting what was credited to the same account leaves only the
      account's creation behind. */
  lemma CreditThenDebit(b: BankState, n: uint32, a: int32)
    ensures Debit(Credit(b, n, a), n, a) == Credit(b, n, 0)
  {
    Add64Undo(b.balance, a);
    Add32Undo(AccountOrZero(b.accounts, n), a);
  }

  /** The change of the total across a transfer: nothing inside one bank;
      between two banks, exactly the change of the two bank counters. */
  lemma TotalAcrossTransfer(banks: Banks, t: SRBalance)
    requires t.sender.name in banks && t.receiver.name in banks
    ensures var s, r, a := t.sender.name, t.receiver.name, t.amount;
      var x, y := banks[s].balance, banks[r].balance;
      TotalBalance(ApplyTransfer(banks, t)) - TotalBalance(banks)
        == if s == r then 0 else (Add64(x, -(a as int)) - x) + (Add64(y, a) - y)
  {
    if t.sender.name == t.receiver.name {
      TotalWithinBank(banks, t);
    } else {
      TotalBetweenBanks(banks, t);
    }
  }

  /** Inside one bank the total of all bank balances does not move. */
  lemma TotalWithinBank(banks: Banks, t: SRBalance)
    requires t.sender.name in banks && t.sender.name == t.receiver.name
    ensures TotalBalance(ApplyTransfer(banks, t)) == TotalBalance(banks)
  {
    var s, a := t.sender.name, t.amount;
    TransferOnOneRecord(banks, t);
    TotalUpdate(banks, s, Credit(Debit(banks[s], t.sender.account, a), t.receiver.account, a));
    Add64Undo(banks[s].balance, a);
  }

  /** Between two banks the total moves by the change of the two bank
      counters. */
  lemma TotalBetweenBanks(banks: Banks, t: SRBalance)
    requires t.sender.name in banks && t.receiver.name in banks && t.sender.name != t.receiver.name
    ensures var s, r, a := t.sender.name, t.receiver.name, t.amount;
      var x, y := banks[s].balance, banks[r].balance;
      TotalBalance(ApplyTransfer(banks, t)) - TotalBalance(banks) == (Add64(x, -(a as int)) - x) + (Add64(y, a) - y)
  {
    var s, r, a := t.sender.name, t.receiver.name, t.amount;
    var ds := Debit(banks[s], t.sender.account, a);
    TransferOnTwoRecords(banks, t);
    TotalUpdate(banks, s, ds);
    TotalUpdate(banks[s := ds], r, Credit(banks[r], t.receiver.account, a));
  }


  /** The sum of all bank balances is unchanged by a transfer modulo 2^64,
      and exactly unchanged when neither bank counter overflows (always when
      sender and receiver are the same bank). */
  lemma TransferConservesTotal(banks: Banks, t: SRBalance)
    requires t.sender.name in banks && t.receiver.name in banks
    ensures (TotalBalance(ApplyTransfer(banks, t)) - TotalBalance(banks)) % TWO_64 == 0
    ensures t.sender.name == t.receiver.name ==> TotalBalance(ApplyTransfer(banks, t)) == TotalBalance(banks)
    ensures var s, v := banks[t.sender.name].balance, banks[t.receiver.name].balance;
      t.sender.name != t.receiver.name && Fits64(s - t.amount) && Fits64(v + t.amount) ==> TotalBalance(ApplyTransfer(banks, t)) == TotalBalance(banks)
  {
    var x, y, a := banks[t.sender.name].balance, banks[t.receiver.name].balance, t.amount;
    var d := TotalBalance(ApplyTransfer(banks, t)) - TotalBalance(banks);
    var e := (Add64(x, -(a as int)) - x) + (Add64(y, a) - y);
    TotalAcrossTransfer(banks, t);
    DebitCreditDrift(x, y, a);
    if t.sender.name == t.receiver.name {
      assert d == 0;
    } else {
      assert d == e;
    }
  }

  /** The round trip on one bank record: debit `sa`, credit `ra`, then the
      reverse (debit `ra`, credit `sa`) leaves the record as a transfer of 0
      would. */
  lemma RecordRoundTrip(b: BankState, sa: uint32, ra: uint32, a: int32)
    ensures Credit(Debit(Credit(Debit(b, sa, a), ra, a), ra, a), sa, a) == Credit(Debit(b, sa, 0), ra, 0)
  {
    var d := Debit(b, sa, a);
    CreditThenDebit(d, ra, a);
    CreditCommute(d, ra, 0, sa, a);
    DebitThenCredit(b, sa, a);
    assert Debit(b, sa, 0) == Credit(b, sa, 0);
  }

  /** The round trip inside one bank. */
  lemma ThenReverseWithinBank(banks: Banks, t: SRBalance)
    requires t.sender.name in banks && t.sender.name == t.receiver.name
    ensures ApplyTransfer(ApplyTransfer(banks, t), Reverse(t)) == ApplyTransfer(banks, t.(amount := 0))
  {
    var n, sa, ra, a := t.sender.name, t.sender.account, t.receiver.account, t.amount;
    var b := banks[n];
    var once := ApplyTransfer(banks, t);
    calc {
      ApplyTransfer(once, Reverse(t));
      { TransferOnOneRecord(once, Reverse(t)); }
      once[n := Credit(Debit(once[n], ra, a), sa, a)];
      { TransferOnOneRecord(banks, t); }
      banks[n := Credit(Debit(Credit(Debit(b, sa, a), ra, a), ra, a), sa, a)];
      { RecordRoundTrip(b, sa, ra, a); }
      banks[n := Credit(Debit(b, sa, 0), ra, 0)];
      { TransferOnOneRecord(banks, t.(amount := 0)); }
      ApplyTransfer(banks, t.(amount := 0));
    }
  }

  /** The round trip between two different banks. */
  lemma ThenReverseBetweenBanks(banks: Banks, t: SRBalance)
    requires t.sender.name in banks && t.receiver.name in banks && t.sender.name != t.receiver.name
    ensures ApplyTransfer(ApplyTransfer(banks, t), Reverse(t)) == ApplyTransfer(banks, t.(amount := 0))
  {
    var s, r, sa, ra, a := t.sender.name, t.receiver.name, t.sender.account, t.receiver.account, t.amount;
    var bs, br := banks[s], banks[r];
    var once := ApplyTransfer(banks, t);
    calc {
      ApplyTransfer(once, Reverse(t));
      { TransferOnTwoRecords(once, Reverse(t)); }
      once[r := Debit(once[r], ra, a)][s := Credit(once[s], sa, a)];
      { TransferOnTwoRecords(banks, t); }
      banks[s := Debit(bs, sa, a)][r := Credit(br, ra, a)][r := Debit(Credit(br, ra, a), ra, a)][s := Credit(Debit(bs, sa, a), sa, a)];
      { CreditThenDebit(br, ra, a); DebitThenCredit(bs, sa, a); }
      banks[s := Credit(bs, sa, 0)][r := Credit(br, ra, 0)];
      { assert Debit(bs, sa, 0) == Credit(bs, sa, 0); }
      banks[s := Debit(bs, sa, 0)][r := Credit(br, ra, 0)];
      { TransferOnTwoRecords(banks, t.(amount := 0)); }
      ApplyTransfer(banks, t.(amount := 0));
    }
  }

  /** A transfer followed by the same transfer reversed restores every
      balance: the result is what a transfer of 0 gives, which differs from
      the start only by the two accounts now existing (at 0 if they were
      missing). */
  lemma TransferThenReverse(banks: Banks, t: SRBalance)
    requires t.sender.name in banks && t.receiver.name in banks
    ensures ApplyTransfer(ApplyTransfer(banks, t), Reverse(t)) == ApplyTransfer(banks, t.(amount := 0))
  {
    if t.sender.name == t.receiver.name {
      ThenReverseWithinBank(banks, t);
    } else {
      ThenReverseBetweenBanks(banks, t);
    }
  }

  /** A transfer of 0 between existing accounts changes nothing. */
  lemma ZeroTransferIdentity(banks: Banks, t: SRBalance)
    requires t.sender.name in banks && t.receiver.name in banks
    requires t.sender.account in banks[t.sender.name].accounts
    requires t.receiver.account in banks[t.receiver.name].accounts
    ensures ApplyTransfer(banks, t.(amount := 0)) == banks
  {
    var s, r := t.sender.name, t.receiver.name;
    var z := ApplyTransfer(banks, t.(amount := 0));
    assert z[s].accounts == banks[s].accounts;
    assert z[r].accounts == banks[r].accounts;
    assert z[s] == banks[s];
    assert z[r] == banks[r];
  }
}
