/**
 How the wallet assembles a transaction: it drafts and signs one without a fee, takes the fee from the weight of that
 draft, and drafts again.
 */
module WalletFees {
  import opened Wrappers

  const U64 := 0x1_0000_0000_0000_0000
  const DUST: u64 := 546
  const MAX_FEE_PER_VBYTE: u64 := 100
  const MIN_FEE_PER_VBYTE: u64 := 1

  type u64 = x: int | 0 <= x < U64

  datatype Receiver = Payee | Change
  datatype Output = Output(value: u64, receiver: Receiver)

  datatype Failure = InsufficientFunds | AmountBelowFee | SigningFailed | NotAllSigned
  datatype Result<T> = Ok(value: T) | Err(error: Failure)

  /**
   What the wallet cannot foresee in each round: how many inputs it can sign, how heavy the signed transaction
   is (signatures vary in size), and where the change goes.
   */
  datatype Signer = Signer(
    sign: (nat, seq<Output>) -> Result<nat>,
    weight: (nat, seq<Output>) -> nat,
    changeFirst: nat -> bool)

  /** A transaction weighs something, and its fee at the highest rate can be represented. */
  ghost predicate Weighs(s: Signer) {
    forall round: nat, outs: seq<Output> :: 0 < s.weight(round, outs) < 0x100_0000_0000_0000
  }

  function Sum(values: seq<u64>): nat {
    if values == [] then 0 else values[0] + Sum(values[1..])
  }

  /** The order and grouping of coins do not matter to their sum. */
  lemma {:induction false} SumAdds(a: seq<u64>, b: seq<u64>)
    ensures Sum(a + b) == Sum(a) + Sum(b)
    ensures a == [] ==> Sum(a) == 0
    ensures |a| == 1 ==> Sum(a) == a[0]
  {
    if a == [] {
      assert a + b == b;
    } else {
      assert (a + b)[1..] == a[1..] + b;
      SumAdds(a[1..], b);
    }
  }

  function Total(outs: seq<Output>): nat {
    if outs == [] then 0 else outs[0].value + Total(outs[1..])
  }

  /** Unchecked subtraction of 64-bit numbers. */
  function Minus(a: u64, b: u64): u64 {
    (a - b) % U64
  }

  function Clamp(rate: u64): (r: u64)
    ensures 1 <= rate <= 100 ==> r == rate
    ensures rate < 1 ==> r == 1
    ensures rate > 100 ==> r == 100
  {
    var atLeast := if rate < MIN_FEE_PER_VBYTE then MIN_FEE_PER_VBYTE else rate;
    if atLeast > MAX_FEE_PER_VBYTE then MAX_FEE_PER_VBYTE else atLeast
  }

  /** The fee in whole units: a weight unit is a quarter of what the rate is for. */
  function Fee(weight: nat, rate: u64): (fee: nat)
    requires rate <= MAX_FEE_PER_VBYTE
    ensures 4 * fee - 4 < weight * rate <= 4 * fee
    ensures 0 < weight && 0 < rate ==> 0 < fee
    ensures weight < 0x100_0000_0000_0000 ==> fee < U64
  {
    FeeFits(weight, rate);
    (weight * rate + 3) / 4
  }

  lemma FeeFits(weight: nat, rate: u64)
    requires rate <= MAX_FEE_PER_VBYTE
    ensures 0 <= weight * rate <= weight * 100
    ensures 0 < weight && 0 < rate ==> 0 < weight * rate
  {
  }

  /** The outputs of a draft: the payment, if it is above dust, and change, if it is above dust. */
  function Draft(total: u64, amount: u64, fee: u64, changeFirst: bool): Result<seq<Output>> {
    if Minus(amount, fee) <= DUST then Err(AmountBelowFee)
    else
      var payment := Output(Minus(amount, fee), Payee);
      if total > amount && total - amount > DUST then
        var change := Output(total - amount, Change);
        Ok(if changeFirst then [change, payment] else [payment, change])
      else Ok([payment])
  }

  /** One round: a draft of which all inputs are signed. */
  function Round(s: Signer, inputs: nat, round: nat, draft: Result<seq<Output>>): Result<seq<Output>> {
    if draft.Err? then draft
    else
      match s.sign(round, draft.value)
      case Err(e) => Err(e)
      case Ok(n) => if n == inputs then draft else Err(NotAllSigned)
  }

  /** Two rounds, written out. */
  function Assembled(s: Signer, coins: seq<u64>, amount: u64, rate: u64): Result<(seq<Output>, u64)>
    requires Weighs(s) && Sum(coins) < U64
  {
    var total := Sum(coins);
    if amount > total then Err(InsufficientFunds)
    else
      match Round(s, |coins|, 0, Draft(total, amount, 0, s.changeFirst(0)))
      case Err(e) => Err(e)
      case Ok(first) =>
        var fee := Fee(s.weight(0, first), Clamp(rate));
        match Round(s, |coins|, 1, Draft(total, amount, fee, s.changeFirst(1)))
        case Err(e) => Err(e)
        case Ok(outs) => Ok((outs, fee))
  }

  /** The loop of the wallet ends after two rounds. */
  method Assemble(s: Signer, coins: seq<u64>, amount: u64, rate: u64) returns (r: Result<(seq<Output>, u64)>)
    requires Weighs(s) && Sum(coins) < U64
    ensures r == Assembled(s, coins, amount, rate)
  {
    var perByte := Clamp(rate);
    var total: u64 := Sum(coins);
    if amount > total {
      return Err(InsufficientFunds);
    }
    var fee: u64, outs: seq<Output>, round := 0, [], 0;
    while true
      invariant 0 <= round <= 1 && (fee == 0 <==> round == 0)
      invariant round == 1 ==>
                  && Round(s, |coins|, 0, Draft(total, amount, 0, s.changeFirst(0))) == Ok(outs)
                  && fee == Fee(s.weight(0, outs), perByte)
      decreases 1 - round
    {
      ghost var draft := Draft(total, amount, fee, s.changeFirst(round));
      outs := [];
      if Minus(amount, fee) > DUST {
        outs := outs + [Output(Minus(amount, fee), Payee)];
      } else {
        return Err(AmountBelowFee);
      }
      if total > amount && total - amount > DUST {
        var change := Output(total - amount, Change);
        outs := if s.changeFirst(round) then [change] + outs else outs + [change];
      }
      assert draft.Ok? && draft.value == outs;
      var signed := s.sign(round, outs);
      if signed.Err? {
        return Err(signed.error);
      }
      if signed.value != |coins| {
        return Err(NotAllSigned);
      }
      if fee == 0 {
        fee := Fee(s.weight(round, outs), perByte);
      } else {
        return Ok((outs, fee));
      }
      round := round + 1;
    }
  }

  /** A withdrawal of everything available, if no amount is given. */
  method Withdraw(s: Signer, coins: seq<u64>, balance: u64, amount: Option<u64>, rate: u64)
    returns (r: Result<(seq<Output>, u64)>)
    requires Weighs(s) && Sum(coins) < U64
    ensures r == Assembled(s, coins, if amount.Some? then amount.value else balance, rate)
  {
    r := Assemble(s, coins, if amount.Some? then amount.value else balance, rate);
  }

  /* ---------- what a transaction pays ---------- */

  /** All outputs are above dust, and what the inputs exceed them by is the fee and at most dust. */
  ghost predicate Balances(total: u64, outs: seq<Output>, fee: u64) {
    && (forall i :: 0 <= i < |outs| ==> outs[i].value > 546)
    && fee <= total - Total(outs) <= fee + 546
  }

  /** What a receiver gets in all. */
  function PaidTo(outs: seq<Output>, r: Receiver): nat {
    if outs == [] then 0 else ValueFor(outs[0], r) + PaidTo(outs[1..], r)
  }

  /** The payee gets the amount less the fee, and what the inputs exceed the amount by goes back unless it is dust. */
  ghost predicate PaysAsAsked(total: u64, amount: u64, fee: u64, outs: seq<Output>) {
    && PaidTo(outs, Payee) == amount - fee
    && PaidTo(outs, Change) == if total - amount > 546 then total - amount else 0
  }

  lemma DraftBalances(total: u64, amount: u64, fee: u64, changeFirst: bool)
    requires amount <= total && Draft(total, amount, fee, changeFirst).Ok?
    ensures var outs := Draft(total, amount, fee, changeFirst).value;
            && (Balances(total, outs, fee) <==> fee <= amount)
            && (PaysAsAsked(total, amount, fee, outs) <==> fee <= amount)
            && (fee > amount ==> Total(outs) + fee >= U64)
  {
    var outs := Draft(total, amount, fee, changeFirst).value;
    var pay := Minus(amount, fee);
    assert pay == if fee <= amount then amount - fee else amount - fee + U64;
    AddUp(outs, Payee);
    AddUp(outs, Change);
  }

  function ValueFor(o: Output, r: Receiver): nat {
    if o.receiver == r then o.value else 0
  }

  lemma {:induction false} AddUp(outs: seq<Output>, r: Receiver)
    requires 1 <= |outs| <= 2
    ensures |outs| == 1 ==> Total(outs) == outs[0].value && PaidTo(outs, r) == ValueFor(outs[0], r)
    ensures |outs| == 2 ==> Total(outs) == outs[0].value + outs[1].value
    ensures |outs| == 2 ==> PaidTo(outs, r) == ValueFor(outs[0], r) + ValueFor(outs[1], r)
  {
    if |outs| == 2 {
      AddUp(outs[1..], r);
    }
  }

  /**
   A transaction the wallet returns pays as asked, and pays its inputs to outputs above dust, the fee and at most dust
   more, if and only if the fee is at most the amount. The fee is the weight of the first draft times the clamped rate
   over 4, rounded up.
   */
  lemma SuccessBalances(s: Signer, coins: seq<u64>, amount: u64, rate: u64)
    requires Weighs(s) && Sum(coins) < U64 && Assembled(s, coins, amount, rate).Ok?
    ensures var (outs, fee) := Assembled(s, coins, amount, rate).value;
            var first := Draft(Sum(coins), amount, 0, s.changeFirst(0));
            && first.Ok? && 4 * fee - 4 < s.weight(0, first.value) * Clamp(rate) <= 4 * fee && fee > 0
            && (Balances(Sum(coins), outs, fee) <==> fee <= amount)
            && (PaysAsAsked(Sum(coins), amount, fee, outs) <==> fee <= amount)
  {
    var (outs, fee) := Assembled(s, coins, amount, rate).value;
    DraftBalances(Sum(coins), amount, fee, s.changeFirst(1));
  }

  /** A draft pays what is left of the amount in 64-bit arithmetic, and gives change unless that is dust. */
  ghost predicate IsDraft(outs: seq<Output>, total: u64, amount: u64, fee: u64) {
    && PaidTo(outs, Payee) == (amount - fee) % 0x1_0000_0000_0000_0000
    && PaidTo(outs, Change) == (if total - amount > 546 then total - amount else 0)
    && |outs| == (if total - amount > 546 then 2 else 1)
  }

  lemma DraftIsDraft(total: u64, amount: u64, fee: u64, changeFirst: bool)
    requires Draft(total, amount, fee, changeFirst).Ok?
    ensures IsDraft(Draft(total, amount, fee, changeFirst).value, total, amount, fee)
  {
    var outs := Draft(total, amount, fee, changeFirst).value;
    AddUp(outs, Payee);
    AddUp(outs, Change);
  }

  lemma RoundIsSigned(s: Signer, inputs: nat, round: nat, draft: Result<seq<Output>>)
    requires Round(s, inputs, round, draft).Ok?
    ensures draft.Ok? && Round(s, inputs, round, draft).value == draft.value
    ensures s.sign(round, draft.value) == Ok(inputs)
  {
  }

  /** The outputs of a transaction the wallet returns are those all of whose inputs were signed in the second round. */
  lemma ReturnedIsSigned(s: Signer, coins: seq<u64>, amount: u64, rate: u64)
    requires Weighs(s) && Sum(coins) < U64 && Assembled(s, coins, amount, rate).Ok?
    ensures var (outs, fee) := Assembled(s, coins, amount, rate).value;
            s.sign(1, outs) == Ok(|coins|) && IsDraft(outs, Sum(coins), amount, fee)
  {
    var (outs, fee) := Assembled(s, coins, amount, rate).value;
    var draft := Draft(Sum(coins), amount, fee, s.changeFirst(1));
    RoundIsSigned(s, |coins|, 1, draft);
    DraftIsDraft(Sum(coins), amount, fee, s.changeFirst(1));
  }

  /**
   The wallet returns a transaction exactly when the inputs cover the amount, all of them are signed in both
   rounds, the amount is above dust and what is left of it after the fee is above dust, in 64-bit arithmetic.
   */
  lemma SucceedsExactly(s: Signer, coins: seq<u64>, amount: u64, rate: u64)
    requires Weighs(s) && Sum(coins) < U64
    ensures Assembled(s, coins, amount, rate).Ok? <==>
            && DUST < amount <= Sum(coins)
            && var first := Draft(Sum(coins), amount, 0, s.changeFirst(0));
            && first.Ok? && s.sign(0, first.value) == Ok(|coins|)
            && var fee := Fee(s.weight(0, first.value), Clamp(rate));
            && (amount > fee + DUST || fee - U64 + DUST < amount < fee)
            && var second := Draft(Sum(coins), amount, fee, s.changeFirst(1));
            && second.Ok? && s.sign(1, second.value) == Ok(|coins|)
  {
    if amount <= Sum(coins) {
      PaymentAboveDust(amount, 0);
      var first := Draft(Sum(coins), amount, 0, s.changeFirst(0));
      if first.Ok? {
        PaymentAboveDust(amount, Fee(s.weight(0, first.value), Clamp(rate)));
      }
    }
  }

  /** The wallet fails before signing if the inputs do not cover the amount or the amount does not exceed dust. */
  lemma FailsAtOnce(s: Signer, coins: seq<u64>, amount: u64, rate: u64)
    requires Weighs(s) && Sum(coins) < U64
    ensures amount > Sum(coins) ==> Assembled(s, coins, amount, rate) == Err(InsufficientFunds)
    ensures amount <= Sum(coins) && amount <= 546 ==> Assembled(s, coins, amount, rate) == Err(AmountBelowFee)
  {
  }

  /** After that it fails as the first round of signing does. */
  lemma FailsInFirst(s: Signer, coins: seq<u64>, amount: u64, rate: u64)
    requires Weighs(s) && Sum(coins) < U64 && 546 < amount <= Sum(coins)
    ensures var first := Draft(Sum(coins), amount, 0, s.changeFirst(0));
            first.Ok? && FailsRound(s, |coins|, 0, first.value, Assembled(s, coins, amount, rate))
  {
    PaymentAboveDust(amount, 0);
    RoundFails(s, |coins|, 0, Draft(Sum(coins), amount, 0, s.changeFirst(0)));
  }

  /** Then if what is left of the amount after the fee does not exceed dust, and then as the second round does. */
  lemma FailsInSecond(s: Signer, coins: seq<u64>, amount: u64, rate: u64, fee: u64)
    requires Weighs(s) && Sum(coins) < U64 && 546 < amount <= Sum(coins)
    requires var first := Draft(Sum(coins), amount, 0, s.changeFirst(0));
             first.Ok? && s.sign(0, first.value) == Ok(|coins|) && fee == Fee(s.weight(0, first.value), Clamp(rate))
    ensures var r, second := Assembled(s, coins, amount, rate), Draft(Sum(coins), amount, fee, s.changeFirst(1));
            && (second.Err? <==> Minus(amount, fee) <= 546) && (second.Err? ==> r == Err(AmountBelowFee))
            && (second.Ok? ==> FailsRound(s, |coins|, 1, second.value, r))
  {
    var first, second := Draft(Sum(coins), amount, 0, s.changeFirst(0)),
                         Draft(Sum(coins), amount, fee, s.changeFirst(1));
    RoundFails(s, |coins|, 0, first);
    RoundFails(s, |coins|, 1, second);
    SecondDecides(s, coins, amount, rate, fee, first.value);
  }

  lemma SecondDecides(s: Signer, coins: seq<u64>, amount: u64, rate: u64, fee: u64, first: seq<Output>)
    requires Weighs(s) && Sum(coins) < U64 && amount <= Sum(coins)
    requires Round(s, |coins|, 0, Draft(Sum(coins), amount, 0, s.changeFirst(0))) == Ok(first)
    requires fee == Fee(s.weight(0, first), Clamp(rate))
    ensures var r := Round(s, |coins|, 1, Draft(Sum(coins), amount, fee, s.changeFirst(1)));
            Assembled(s, coins, amount, rate) == if r.Ok? then Ok((r.value, fee)) else Err(r.error)
  {
  }

  lemma RoundFails(s: Signer, inputs: nat, round: nat, draft: Result<seq<Output>>)
    ensures draft.Err? ==> Round(s, inputs, round, draft) == draft
    ensures draft.Ok? ==>
              var signed, r := s.sign(round, draft.value), Round(s, inputs, round, draft);
              && (signed.Err? ==> r == Err(signed.error))
              && (signed.Ok? ==> r == if signed.value == inputs then draft else Err(NotAllSigned))
  {
  }

  /** Signing that fails or is not complete is the failure of the whole. */
  ghost predicate FailsRound(s: Signer, inputs: nat, round: nat, outs: seq<Output>, r: Result<(seq<Output>, u64)>) {
    && (s.sign(round, outs).Err? ==> r == Err(s.sign(round, outs).error))
    && (s.sign(round, outs).Ok? && s.sign(round, outs).value != inputs ==> r == Err(NotAllSigned))
  }

  /** The check for dust accepts what it should, and also nearly every amount below the fee. */
  lemma PaymentAboveDust(amount: u64, fee: u64)
    ensures Minus(amount, fee) > DUST <==> amount > fee + DUST || fee - U64 + DUST < amount < fee
  {
  }

  /**
   A draft of weight 440 at 100 per byte costs 11000. Paying 1000 with it succeeds, with an output beyond all inputs.
   */
  lemma AmountBelowFeeSucceeds()
    ensures var s := Signer((round, outs) => Ok(1), (round, outs) => 440, round => false);
            && Weighs(s) && Sum([1000]) == 1000
            && Assembled(s, [1000], 1000, 100) == Ok(([Output(U64 - 10000, Payee)], 11000))
  {
  }
}
