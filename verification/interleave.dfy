/** Concurrent transfers, seen as the atomic counter updates they are made
    of. Each transfer is four independent atomic adds taken under a shared
    lock only, so the adds of concurrent transfers may land in any order.
    Every two adds commute, so, with `updateAccount` taken as one atomic
    step, every interleaving of the same adds leaves the ledger as running
    the transfers one after the other does. */
module Interleaving {
  import opened Ints
  import opened Ledger
  import opened Reorder

  /** One atomic update: `atomic.AddInt64` on a bank balance, or
      `updateAccount` on an account of a bank. */
  datatype Op =
    | AddBalance(bank: string, d: int64)
    | AddAccount(bank: string, account: uint32, delta: int32)

  /** The effect of one atomic update. An update naming a bank that is not
      in the ledger leaves it as it is; every lemma below names only banks
      that are present. */
  function Step(banks: Banks, op: Op): (r: Banks)
    ensures r.Keys == banks.Keys
    ensures op.bank in banks ==> r[op.bank].id == banks[op.bank].id
    ensures forall n :: n in banks && n != op.bank ==> r[n] == banks[n]
  {
    if op.bank !in banks then banks
    else match op
      case AddBalance(n, d) => AddToBankBalance(banks, n, d)
      case AddAccount(n, a, d) => AddToBankAccount(banks, n, a, d)
  }

  /** Any two atomic updates commute, whichever counters they touch. */
  lemma StepCommute(banks: Banks, o1: Op, o2: Op)
    ensures Step(Step(banks, o1), o2) == Step(Step(banks, o2), o1)
  {
    if o1.bank in banks && o2.bank in banks && o1.bank == o2.bank {
      var b := banks[o1.bank];
      match (o1, o2)
      case (AddBalance(_, d1), AddBalance(_, d2)) =>
        Add64Commute(b.balance, d1, d2);
      case (AddAccount(_, a1, d1), AddAccount(_, a2, d2)) =>
        AddToAccountCommute(b.accounts, a1, d1, a2, d2);
      case _ =>
    }
  }

  /** The ledger's updates commute in every state. */
  lemma StepsCommute()
    ensures Commutes(Step)
  {
    forall banks: Banks, o1: Op, o2: Op
      ensures Step(Step(banks, o1), o2) == Step(Step(banks, o2), o1)
    {
      StepCommute(banks, o1, o2);
    }
  }

  /** The four updates of `UpdateBalances`, in the order it issues them. */
  function TransferOps(t: SRBalance): (ops: seq<Op>)
    ensures |ops| == 4
    ensures forall i :: 0 <= i < 4 ==> ops[i].bank == t.sender.name || ops[i].bank == t.receiver.name
  {
    [ AddBalance(t.sender.name, -(t.amount as int)),
      AddBalance(t.receiver.name, t.amount),
      AddAccount(t.sender.name, t.sender.account, Neg32(t.amount)),
      AddAccount(t.receiver.name, t.receiver.account, t.amount) ]
  }

  /** A transfer is exactly its four updates run in order. */
  lemma TransferIsFold(banks: Banks, t: SRBalance)
    requires t.sender.name in banks && t.receiver.name in banks
    ensures Fold(Step, banks, TransferOps(t)) == ApplyTransfer(banks, t)
  {
    var ops := TransferOps(t);
    FoldFour(Step, banks, ops[0], ops[1], ops[2], ops[3]);
    assert ops == [ops[0], ops[1], ops[2], ops[3]];
  }

  /** Every bank that `ts` names is in `banks`. */
  predicate Parties(banks: Banks, ts: seq<SRBalance>) {
    forall i :: 0 <= i < |ts| ==> ts[i].sender.name in banks && ts[i].receiver.name in banks
  }

  /** One `UpdateBalances` call as an update of the ledger. A transfer
      naming a bank that is not in the ledger leaves it as it is; every
      lemma below names only banks that are present. */
  function Transfer(banks: Banks, t: SRBalance): (r: Banks)
    ensures r.Keys == banks.Keys
  {
    if t.sender.name in banks && t.receiver.name in banks then ApplyTransfer(banks, t) else banks
  }

  /** The transfers `ts` applied one after another with `UpdateBalances`. */
  function ApplyAll(banks: Banks, ts: seq<SRBalance>): Banks {
    Fold(Transfer, banks, ts)
  }

  /** The updates of `ts`, one transfer after another. */
  function Sequential(ts: seq<SRBalance>): (ops: seq<Op>)
    ensures |ops| == 4 * |ts|
  {
    if ts == [] then [] else TransferOps(ts[0]) + Sequential(ts[1..])
  }

  /** Running the updates of `ts` back to back is applying `ts` in order. */
  lemma {:induction false} SequentialIsApplyAll(banks: Banks, ts: seq<SRBalance>)
    requires Parties(banks, ts)
    ensures Fold(Step, banks, Sequential(ts)) == ApplyAll(banks, ts)
  {
    if ts != [] {
      var t, rest := ts[0], ts[1..];
      TransferIsFold(banks, t);
      SequentialIsApplyAll(ApplyTransfer(banks, t), rest);
      FoldAppend(Step, banks, TransferOps(t), Sequential(rest));
      assert ApplyAll(banks, ts) == ApplyAll(Transfer(banks, t), rest);
    }
  }

  /** Concurrent transfers: whatever order the atomic updates of `ts` land
      in, the ledger ends as if the transfers had run one after another. */
  lemma InterleavingIsSequential(banks: Banks, ts: seq<SRBalance>, schedule: seq<Op>)
    requires Parties(banks, ts)
    requires multiset(schedule) == multiset(Sequential(ts))
    ensures Fold(Step, banks, schedule) == ApplyAll(banks, ts)
  {
    SequentialIsApplyAll(banks, ts);
    StepsCommute();
    FoldPermutation(Step, banks, Sequential(ts), schedule);
  }

  /** Two transfers in a row are their eight updates in a row. */
  lemma TransferPairIsFold(banks: Banks, t1: SRBalance, t2: SRBalance)
    requires t1.sender.name in banks && t1.receiver.name in banks
    requires t2.sender.name in banks && t2.receiver.name in banks
    ensures Fold(Step, banks, TransferOps(t1) + TransferOps(t2)) == ApplyTransfer(ApplyTransfer(banks, t1), t2)
  {
    var b1 := ApplyTransfer(banks, t1);
    FoldAppend(Step, banks, TransferOps(t1), TransferOps(t2));
    TransferIsFold(banks, t1);
    TransferIsFold(b1, t2);
  }

  /** Two transfers applied in either order leave the same ledger. */
  lemma TransfersCommute(banks: Banks, t1: SRBalance, t2: SRBalance)
    requires t1.sender.name in banks && t1.receiver.name in banks
    requires t2.sender.name in banks && t2.receiver.name in banks
    ensures ApplyTransfer(ApplyTransfer(banks, t1), t2) == ApplyTransfer(ApplyTransfer(banks, t2), t1)
  {
    var o1, o2 := TransferOps(t1), TransferOps(t2);
    calc {
      ApplyTransfer(ApplyTransfer(banks, t1), t2);
      { TransferPairIsFold(banks, t1, t2); }
      Fold(Step, banks, o1 + o2);
      { StepsCommute();
        assert multiset(o1 + o2) == multiset(o2 + o1);
        FoldPermutation(Step, banks, o1 + o2, o2 + o1); }
      Fold(Step, banks, o2 + o1);
      { TransferPairIsFold(banks, t2, t1); }
      ApplyTransfer(ApplyTransfer(banks, t2), t1);
    }
  }

  /** One back-and-forth pair: `t`, then its reverse. */
  function BackAndForth(banks: Banks, t: SRBalance): Banks {
    Transfer(Transfer(banks, t), Reverse(t))
  }

  /** `BackAndForth` for a fixed `t`, as an update of the ledger. */
  function PairOf(t: SRBalance): Banks -> Banks {
    banks => BackAndForth(banks, t)
  }

  /** `t` and its reverse, `k` times over: the back-and-forth traffic between
      two accounts. */
  function Alternate(banks: Banks, t: SRBalance, k: nat): Banks {
    Iterate(PairOf(t), banks, k)
  }

  /** The same traffic as a sequence of transfers: `t`, its reverse, `t`, ... */
  function Pairs(t: SRBalance, k: nat): (ts: seq<SRBalance>)
    ensures forall i :: 0 <= i < |ts| ==> ts[i] == t || ts[i] == Reverse(t)
  {
    var ts := Repeat([t, Reverse(t)], k);
    assert forall i :: 0 <= i < |ts| ==> ts[i] in [t, Reverse(t)];
    ts
  }

  /** A transfer of 0 applied twice is the same as applied once. */
  lemma ZeroTransferIdempotent(banks: Banks, t: SRBalance)
    requires t.sender.name in banks && t.receiver.name in banks
    ensures var z := t.(amount := 0);
      ApplyTransfer(ApplyTransfer(banks, z), z) == ApplyTransfer(banks, z)
  {
    var z := t.(amount := 0);
    TransferFrame(banks, z);
    ZeroTransferIdentity(ApplyTransfer(banks, z), z);
  }

  /** Any positive number of back-and-forth pairs restores every balance:
      the ledger ends as a single transfer of 0 leaves it (the two accounts
      exist, with their old values or 0). */
  lemma AlternateRestores(banks: Banks, t: SRBalance, k: nat)
    requires t.sender.name in banks && t.receiver.name in banks && k > 0
    ensures Alternate(banks, t, k) == ApplyTransfer(banks, t.(amount := 0))
  {
    var zero := ApplyTransfer(banks, t.(amount := 0));
    TransferThenReverse(banks, t);
    TransferThenReverse(zero, t);
    ZeroTransferIdempotent(banks, t);
    IterateSettles(PairOf(t), banks, zero, k);
  }

  /** Applying the transfers of `Pairs(t, k)` one after another is the
      back-and-forth traffic `Alternate(banks, t, k)`. */
  lemma AlternateIsApplyAll(banks: Banks, t: SRBalance, k: nat)
    requires t.sender.name in banks && t.receiver.name in banks
    ensures Parties(banks, Pairs(t, k))
    ensures ApplyAll(banks, Pairs(t, k)) == Alternate(banks, t, k)
  {
    forall b: Banks
      ensures PairOf(t)(b) == Fold(Transfer, b, [t, Reverse(t)])
    {
      FoldTwo(Transfer, b, t, Reverse(t));
    }
    FoldRepeat(Transfer, PairOf(t), banks, [t, Reverse(t)], k);
  }

  /** Concurrent back-and-forth traffic: however the atomic updates of `k`
      pairs of transfers between two accounts interleave, every balance ends
      restored, as after a single transfer of 0. */
  lemma ConcurrentAlternateRestores(banks: Banks, t: SRBalance, k: nat, schedule: seq<Op>)
    requires t.sender.name in banks && t.receiver.name in banks && k > 0
    requires multiset(schedule) == multiset(Sequential(Pairs(t, k)))
    ensures Fold(Step, banks, schedule) == ApplyTransfer(banks, t.(amount := 0))
  {
    AlternateIsApplyAll(banks, t, k);
    InterleavingIsSequential(banks, Pairs(t, k), schedule);
    AlternateRestores(banks, t, k);
  }
}
