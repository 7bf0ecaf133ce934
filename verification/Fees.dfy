/** The service fee: the calculator, the distributor, and the two transfer lists the
    bridge account signs. All amounts are Go int64 values, so overflow is modelled. */
module Fees {
  import opened Int64
  import opened Text
  import opened Wrappers

  const MAX_PERCENTAGE := 100000

  /** The largest amount for which no legal percentage can overflow the calculator. */
  const SAFE_AMOUNT := 92233720368547

  /** The range the calculator's constructor insists on. */
  type Percentage = p: int | 0 <= p <= MAX_PERCENTAGE

  /** A member count: the distributor refuses an empty list, and Go lengths are int64. */
  type Count = n: int | 1 <= n <= MAX witness 1

  type AccountId = string

  datatype HederaTransfer = HederaTransfer(account: AccountId, amount: int64)

  datatype FeeSplit = FeeSplit(fee: int64, remainder: int64)

  // ----- calculator -----

  function CalculateFee(amount: int64, p: Percentage): FeeSplit {
    var fee := Quo(Wrap(amount * p), MAX_PERCENTAGE);
    var remainder := Wrap(amount - fee);
    var total := Wrap(remainder + fee);
    if total != amount then FeeSplit(fee, Wrap(remainder + Wrap(amount - total)))
    else FeeSplit(fee, remainder)
  }

  /** Division truncated toward zero on unbounded integers: the fee one would expect. */
  function ExactFee(amount: int, p: Percentage): int {
    if amount >= 0 then amount * p / MAX_PERCENTAGE else -(-amount * p / MAX_PERCENTAGE)
  }

  /** Fee and remainder add up to the amount modulo 2^64 for every int64, and the
      calculator's correction branch is never taken. */
  lemma FeePlusRemainder(amount: int64, p: Percentage)
    ensures var s := CalculateFee(amount, p);
            && Congruent(s.fee + s.remainder, amount)
            && s.remainder == Wrap(amount - s.fee)
            && Wrap(Wrap(amount - s.fee) + s.fee) == amount
  {
    SubtractThenAdd(amount, Quo(Wrap(amount * p), MAX_PERCENTAGE));
  }

  lemma SubtractThenAdd(amount: int64, fee: int64)
    ensures Wrap(Wrap(amount - fee) + fee) == amount
    ensures Congruent(fee + Wrap(amount - fee), amount)
  {
    CongruentSum(Wrap(amount - fee), amount - fee, fee, fee);
    WrapUnique(Wrap(amount - fee) + fee, amount);
  }

  /** The charged percentage is exact precisely when the product fits in 64 bits. */
  lemma FeeExactIff(amount: int64, p: Percentage)
    ensures CalculateFee(amount, p).fee == ExactFee(amount, p) <==> InRange(amount * p)
  {
    var a: int, x: int := amount, amount * p;
    if a >= 0 { assert x >= 0 by { MulSign(a, p); } }
    else { assert x <= 0 && -a * p == -x by { MulSign(-a, p); } }
    if !InRange(x) {
      var k := (Wrap(x) - x) / MODULUS;
      assert Wrap(x) == x + k * MODULUS && k != 0;
    }
  }

  lemma MulSign(a: nat, b: nat)
    ensures a * b >= 0
  {}

  /** For a non-negative amount, every legal percentage charges a fee between zero and the
      amount if and only if the amount does not exceed `SAFE_AMOUNT`: the bound is tight. */
  lemma SafeForEveryPercentageIff(amount: int64)
    requires amount >= 0
    ensures (forall p: Percentage :: 0 <= CalculateFee(amount, p).fee <= amount) <==> amount <= SAFE_AMOUNT
  {
    if amount <= SAFE_AMOUNT {
      forall p: Percentage ensures 0 <= CalculateFee(amount, p).fee <= amount {
        SafeFee(amount, p);
      }
    } else {
      var p := UnsafePercentage(amount);
    }
  }

  /** When the product fits, the fee is between zero and the amount. */
  lemma SafeFee(amount: int64, p: Percentage)
    requires amount >= 0 && (amount <= SAFE_AMOUNT || amount * p <= MAX)
    ensures 0 <= amount * p <= MAX
    ensures CalculateFee(amount, p).fee == amount * p / MAX_PERCENTAGE
    ensures 0 <= CalculateFee(amount, p).fee <= amount
  {
    MulSign(amount, p);
    assert amount * p <= amount * MAX_PERCENTAGE by { MulMono(amount, p, MAX_PERCENTAGE); }
    FeeExactIff(amount, p);
  }

  lemma MulMono(a: nat, b: int, c: int)
    requires b <= c
    ensures a * b <= a * c
  {
    assert a * (c - b) >= 0 by { MulSign(a, c - b); }
  }

  /** Above the bound, the first percentage that overflows charges a negative fee; in the
      last 100000 amounts below 2^63 the full percentage does. */
  lemma UnsafePercentage(amount: int64) returns (p: Percentage)
    requires amount > SAFE_AMOUNT
    ensures CalculateFee(amount, p).fee < 0
  {
    var a: int := amount;
    if a > MAX - MAX_PERCENTAGE {
      p := MAX_PERCENTAGE;
      WrapUnique(a * p, MAX_PERCENTAGE * (a - MAX - 1));
    } else {
      var q := MAX / a;
      assert MAX == a * q + MAX % a;
      assert q < MAX_PERCENTAGE by {
        if q >= MAX_PERCENTAGE { MulMono(a, MAX_PERCENTAGE, q); assert false; }
      }
      p := q + 1;
      assert a * p == a * q + a;
      WrapUnique(a * p, a * p - MODULUS);
    }
  }

  // ----- distributor -----

  /** The multiple of the member count that `amount` is rounded to, toward zero. */
  function ValidAmount(amount: int64, n: Count): int64 {
    var feePerAccount := Quo(amount, n);
    var totalAmount := Wrap(feePerAccount * n);
    if totalAmount != amount then totalAmount else amount
  }

  /** Rounding never overflows, is divisible, keeps the sign and drops less than `n`. */
  lemma ValidAmountRounds(amount: int64, n: Count)
    ensures var v: int := ValidAmount(amount, n);
            && v == n * Quo(amount, n)
            && Rem(v, n) == 0 && Quo(v, n) == Quo(amount, n)
            && (amount >= 0 ==> 0 <= amount - v < n && v >= 0)
            && (amount <= 0 ==> 0 <= v - amount < n && v <= 0)
  {
    var q := Quo(amount, n);
    var r := Rem(amount, n);
    var a: int := amount;
    assert a == n * q + r;
    assert n * q == q * n;
    if a >= 0 { MulSign(n, q); assert 0 <= n * q <= a; DivUnique(n * q, n, q, 0); }
    else {
      MulSign(n, -q); assert n * -q == -(n * q);
      assert a <= n * q <= 0;
      DivUnique(n * -q, n, -q, 0);
    }
    assert ValidAmount(amount, n) == n * q;
  }

  /** The distance of two amounts. */
  function Distance(a: int, b: int): nat { if a < b then b - a else a - b }

  /** The valid amount is the nearest multiple of the member count, as its documentation
      says, exactly for amounts whose remainder is at most half the member count. */
  lemma ValidAmountNearestIff(amount: int64, n: Count)
    ensures (forall k: int :: Distance(amount, ValidAmount(amount, n)) <= Distance(amount, n * k))
            <==> 2 * Distance(Rem(amount, n), 0) <= n
  {
    hide ValidAmount, Quo;
    ValidAmountRounds(amount, n);
    NearestMultipleIff(amount, n, Quo(amount, n), Rem(amount, n));
  }

  lemma NearestMultipleIff(a: int, n: int, q: int, r: int)
    requires n > 0 && a == n * q + r && -n < r < n
    ensures (forall k: int :: Distance(a, n * q) <= Distance(a, n * k)) <==> 2 * Distance(r, 0) <= n
  {
    if 2 * Distance(r, 0) <= n {
      forall k: int ensures Distance(a, n * q) <= Distance(a, n * k) { MultiplesApart(n, q, k); }
    } else {
      var k := if r > 0 then q + 1 else q - 1;
      NextMultiple(n, q);
      assert Distance(a, n * k) < Distance(a, n * q);
    }
  }

  lemma NextMultiple(n: int, q: int)
    ensures n * (q + 1) == n * q + n && n * (q - 1) == n * q - n
  {}

  /** Different multiples are at least one step apart. */
  lemma MultiplesApart(n: int, q: int, k: int)
    requires n > 0
    ensures k == q || n * k >= n * q + n || n * k <= n * q - n
  {
    NextMultiple(n, q);
    if k > q { MulMono(n, q + 1, k); } else if k < q { MulMono(n, k, q - 1); }
  }

  /** An amount that is not rounded to the nearest multiple: 6 is nearer to 5 than 3 is. */
  lemma ValidAmountNotNearest()
    ensures ValidAmount(5, 3) == 3 && Distance(5, 6) < Distance(5, 3)
  {}

  lemma DivUnique(x: int, d: int, q: int, r: int)
    requires d > 0 && x == d * q + r && 0 <= r < d
    ensures x / d == q && x % d == r
  {
    var e := x / d - q;
    assert x == d * (x / d) + x % d;
    assert d * (x / d) == d * q + d * e;
    assert d * e == r - x % d;
    if e > 0 { MulMono(d, 1, e); assert false; }
    if e < 0 { MulMono(d, e, -1); assert false; }
    assert d * 0 == 0;
  }

  function Shares(members: seq<AccountId>, share: int64): (list: seq<HederaTransfer>)
    ensures |list| == |members|
    ensures forall i :: 0 <= i < |members| ==> list[i] == HederaTransfer(members[i], share)
  {
    seq(|members|, i requires 0 <= i < |members| => HederaTransfer(members[i], share))
  }

  /** Gives every member the same share, or reports an amount that does not divide. */
  method CalculateMemberDistribution(members: seq<AccountId>, amount: int64)
    returns (r: Result<seq<HederaTransfer>, string>)
    requires 1 <= |members| <= MAX
    ensures r == if Rem(amount, |members|) == 0 then Success(Shares(members, Quo(amount, |members|)))
                 else Failure("amount not divisible")
    ensures r.Success? ==> Total(r.value) == amount
  {
    var feePerAccount := Quo(amount, |members|);
    ValidAmountRounds(amount, |members|);
    assert feePerAccount * |members| == |members| * feePerAccount;
    var totalAmount := Wrap(feePerAccount * |members|);
    if totalAmount != amount {
      return Failure("amount not divisible");
    }
    var transfers := [];
    for i := 0 to |members|
      invariant transfers == Shares(members[..i], feePerAccount)
    {
      transfers := transfers + [HederaTransfer(members[i], feePerAccount)];
      assert members[..i + 1] == members[..i] + [members[i]];
    }
    assert members[..|members|] == members;
    r := Success(transfers);
    TotalShares(members, feePerAccount);
  }

  // ----- the charged fee and the two lists -----

  /** What a deposit or a burn of `amount` is charged: the fee rounded to a multiple of the
      member count. */
  function ChargedFee(amount: int64, p: Percentage, n: Count): int64 {
    ValidAmount(CalculateFee(amount, p).fee, n)
  }

  /** What is left of `amount`, rounding dust included: the bridged or paid-out amount. */
  function NetAmount(amount: int64, p: Percentage, n: Count): int64 {
    var s := CalculateFee(amount, p);
    var valid := ValidAmount(s.fee, n);
    if valid != s.fee then Wrap(s.remainder + Wrap(s.fee - valid)) else s.remainder
  }

  /** Net amount and charged fee add up to the amount modulo 2^64, for every int64. */
  lemma NetPlusFee(amount: int64, p: Percentage, n: Count)
    ensures NetAmount(amount, p, n) == Wrap(amount - ChargedFee(amount, p, n))
  {
    hide ValidAmount, CalculateFee, Quo, Wrap, Congruent;
    FeePlusRemainder(amount, p);
    var s := CalculateFee(amount, p);
    NetOf(amount, s.fee, ValidAmount(s.fee, n));
  }

  lemma NetOf(amount: int64, fee: int64, valid: int64)
    ensures Wrap(Wrap(amount - fee) + Wrap(fee - valid)) == Wrap(amount - valid)
  {
    var total := Wrap(amount - fee) + Wrap(fee - valid);
    CongruentSum(Wrap(amount - fee), amount - fee, Wrap(fee - valid), fee - valid);
    CongruentSum(Wrap(total), total, total, amount - valid);
    WrapUnique(amount - valid, Wrap(total));
  }

  /** Within the 64-bit bound the charged fee has the closed form n * floor(a*p / (100000*n)),
      lies between zero and the amount, and the split is exact. */
  lemma ChargedFeeClosedForm(amount: int64, p: Percentage, n: Count)
    requires 0 <= amount && amount * p <= MAX
    ensures ChargedFee(amount, p, n) == n * (amount * p / (MAX_PERCENTAGE * n))
    ensures 0 <= ChargedFee(amount, p, n) <= amount
    ensures NetAmount(amount, p, n) == amount - ChargedFee(amount, p, n)
    ensures 0 <= NetAmount(amount, p, n) - CalculateFee(amount, p).remainder < n
  {
    SafeFee(amount, p);
    ValidAmountRounds(CalculateFee(amount, p).fee, n);
    DivDiv(amount * p, MAX_PERCENTAGE, n);
    NetPlusFee(amount, p, n);
    FeePlusRemainder(amount, p);
  }

  /** Whatever overflowed, the calculator's fee is at most 92233720368547 in size. */
  lemma FeeBounded(amount: int64, p: Percentage, n: Count)
    ensures -SAFE_AMOUNT <= CalculateFee(amount, p).fee <= SAFE_AMOUNT
    ensures -SAFE_AMOUNT <= ChargedFee(amount, p, n) <= SAFE_AMOUNT
  {
    ValidAmountRounds(CalculateFee(amount, p).fee, n);
  }

  /** The charged fee is negative exactly when the 64-bit product of amount and percentage
      is negative by at least one percentage unit per member. */
  lemma ChargedFeeNegativeIff(amount: int64, p: Percentage, n: Count)
    ensures ChargedFee(amount, p, n) < 0 <==> Wrap(amount * p) <= -(MAX_PERCENTAGE * n)
  {
    hide ValidAmount, Quo;
    var w := Wrap(amount * p);
    var fee := Quo(w, MAX_PERCENTAGE);
    FeePlusRemainder(amount, p);
    ValidAmountRounds(fee, n);
    MulNegativeIff(n, Quo(fee, n));
    QuoAtMostIff(fee, n, 1);
    QuoAtMostIff(w, MAX_PERCENTAGE, n);
  }

  lemma MulNegativeIff(n: int, q: int)
    requires n > 0
    ensures n * q < 0 <==> q < 0
  {
    if q >= 0 { MulSign(n, q); } else { MulMono(n, q, -1); }
  }

  /** A truncated quotient is at most `-k` exactly when the dividend is at most `-k` divisors. */
  lemma QuoAtMostIff(x: int64, d: Count, k: int)
    requires k > 0
    ensures Quo(x, d) <= -k <==> x <= -(d * k)
  {
    var q: int, r := Quo(x, d), Rem(x, d);
    assert x == d * q + r;
    assert d * -k == -(d * k);
    if q <= -k { MulMono(d, q, -k); }
    else {
      MulMono(d, -k + 1, q);
      assert d * (-k + 1) == d * -k + d;
    }
  }

  /** Of a non-negative amount, net amount and charged fee are an exact split precisely when
      the net amount is not negative, that is, when the amount less the fee fits 64 bits. */
  lemma NetFitsIff(amount: int64, p: Percentage, n: Count)
    requires amount >= 0
    ensures NetAmount(amount, p, n) >= 0 <==> InRange(amount - ChargedFee(amount, p, n))
    ensures InRange(amount - ChargedFee(amount, p, n)) ==>
              NetAmount(amount, p, n) == amount - ChargedFee(amount, p, n)
    ensures ChargedFee(amount, p, n) >= 0 ==> ChargedFee(amount, p, n) <= amount
  {
    hide ValidAmount, CalculateFee, NetAmount, Wrap;
    NetPlusFee(amount, p, n);
    FeeBounded(amount, p, n);
    if amount <= SAFE_AMOUNT {
      SafeFee(amount, p);
      ValidAmountRounds(CalculateFee(amount, p).fee, n);
    }
    WrapNonNegativeIff(amount - ChargedFee(amount, p, n));
  }

  lemma WrapNonNegativeIff(x: int)
    requires 0 <= x <= MAX + SAFE_AMOUNT
    ensures Wrap(x) >= 0 <==> InRange(x)
  {}

  lemma DivDiv(x: nat, a: int, b: int)
    requires a > 0 && b > 0
    ensures a * b > 0 && x / a / b == x / (a * b)
  {
    var y, r := x / a, x % a;
    var q, t := y / b, y % b;
    assert x == a * y + r && y == b * q + t;
    assert a * y == a * (b * q) + a * t;
    assert a * (b * q) == (a * b) * q;
    assert 0 <= a * t <= a * (b - 1) by { MulSign(a, t); MulMono(a, t, b - 1); }
    assert a * (b - 1) == a * b - a;
    MulSign(a - 1, b - 1);
    DivUnique(x, a * b, q, a * t + r);
  }

  // ----- splitting one deposit into many -----

  function Sum(parts: seq<int64>): int {
    if parts == [] then 0 else parts[0] + Sum(parts[1..])
  }

  function TotalCharged(parts: seq<int64>, p: Percentage, n: Count): int {
    if parts == [] then 0 else ChargedFee(parts[0], p, n) + TotalCharged(parts[1..], p, n)
  }

  /** Splitting a sum into k deposits never raises the total fee and lowers it by at most
      n * (k - 1). */
  lemma {:induction false} SplittingDeposits(parts: seq<int64>, p: Percentage, n: Count)
    requires parts != [] && forall i :: 0 <= i < |parts| ==> parts[i] >= 0
    requires InRange(Sum(parts)) && Sum(parts) * p <= MAX
    ensures Sum(parts) >= 0
    ensures TotalCharged(parts, p, n) <= ChargedFee(Sum(parts), p, n)
    ensures ChargedFee(Sum(parts), p, n) <= TotalCharged(parts, p, n) + n * (|parts| - 1)
  {
    hide ChargedFee;
    var head, rest := parts[0], parts[1..];
    SumNonNegative(rest);
    var s: int := Sum(rest);
    if rest == [] {
      assert TotalCharged(rest, p, n) == 0;
    } else {
      assert s * p <= (head + s) * p by { MulMono(p, s, head + s); }
      SplittingDeposits(rest, p, n);
      SplittingTwo(head, s, p, n);
      OneMore(n, |rest|);
    }
  }

  /** Two deposits against one of their sum: never more, and less by at most `n`. */
  lemma SplittingTwo(a: int64, b: int64, p: Percentage, n: Count)
    requires a >= 0 && b >= 0 && InRange(a + b) && (a + b) * p <= MAX
    ensures ChargedFee(a, p, n) + ChargedFee(b, p, n) <= ChargedFee(a + b, p, n)
    ensures ChargedFee(a + b, p, n) <= ChargedFee(a, p, n) + ChargedFee(b, p, n) + n
  {
    hide ChargedFee, NetAmount, CalculateFee;
    var s: int, d := a + b, MAX_PERCENTAGE * n;
    assert s * p == a * p + b * p;
    MulSign(a, p); MulSign(b, p);
    ChargedFeeClosedForm(a, p, n);
    ChargedFeeClosedForm(b, p, n);
    ChargedFeeClosedForm(s, p, n);
    FloorSum(a * p, b * p, d);
    ScaledBounds(n, a * p / d, b * p / d, s * p / d);
  }

  lemma ScaledBounds(n: nat, f: int, g: int, h: int)
    requires f + g <= h <= f + g + 1
    ensures n * f + n * g <= n * h <= n * f + n * g + n
  {
    MulMono(n, f + g, h);
    MulMono(n, h, f + g + 1);
    assert n * (f + g) == n * f + n * g && n * (f + g + 1) == n * f + n * g + n;
  }

  lemma OneMore(n: int, k: int)
    ensures n * (k - 1) + n == n * k
  {}

  lemma {:induction false} SumNonNegative(parts: seq<int64>)
    requires forall i :: 0 <= i < |parts| ==> parts[i] >= 0
    ensures Sum(parts) >= 0
  {
    if parts != [] { SumNonNegative(parts[1..]); }
  }

  lemma FloorSum(x: nat, y: nat, d: int)
    requires d > 0
    ensures x / d + y / d <= (x + y) / d <= x / d + y / d + 1
  {
    var q := x / d + y / d;
    var r := x % d + y % d;
    assert x + y == d * q + r by {
      assert x == d * (x / d) + x % d && y == d * (y / d) + y % d;
      assert d * q == d * (x / d) + d * (y / d);
    }
    if r < d { DivUnique(x + y, d, q, r); }
    else { assert d * (q + 1) == d * q + d; DivUnique(x + y, d, q + 1, r - d); }
  }

  // ----- the lists sum to zero -----

  function Total(list: seq<HederaTransfer>): int {
    if list == [] then 0 else list[0].amount + Total(list[1..])
  }

  lemma {:induction false} TotalAppend(a: seq<HederaTransfer>, b: seq<HederaTransfer>)
    ensures Total(a + b) == Total(a) + Total(b)
  {
    if a == [] {
      assert a + b == b;
    } else {
      assert (a + b)[1..] == a[1..] + b;
      TotalAppend(a[1..], b);
    }
  }

  lemma {:induction false} TotalShares(members: seq<AccountId>, share: int64)
    ensures Total(Shares(members, share)) == |members| * share
  {
    if members != [] {
      assert Shares(members, share)[1..] == Shares(members[1..], share);
      TotalShares(members[1..], share);
      assert |members| * share == |members[1..]| * share + share;
    }
  }

  lemma TotalOfTwo(list: seq<HederaTransfer>)
    requires |list| == 2
    ensures Total(list) == list[0].amount + list[1].amount
  {
    var tail := list[1..];
    assert tail[1..] == [] && Total(tail) == tail[0].amount;
  }

  /** The scheduled transfers that pay a deposit's fee to the members. */
  function FeeList(members: seq<AccountId>, bridge: AccountId, fee: int64): seq<HederaTransfer>
    requires 1 <= |members| <= MAX
  {
    Shares(members, Quo(fee, |members|)) + [HederaTransfer(bridge, Wrap(-(fee as int)))]
  }

  /** Every member, in order, gets an equal part of the fee, and the bridge account, at the end,
      pays the whole of it. */
  lemma FeeListEntries(members: seq<AccountId>, bridge: AccountId, amount: int64, p: Percentage)
    requires 1 <= |members| <= MAX
    ensures var n, fee: int := |members|, ChargedFee(amount, p, |members|);
            var list := FeeList(members, bridge, fee);
            && |list| == n + 1
            && (forall i :: 0 <= i < n ==> list[i].account == members[i] && n * list[i].amount == fee)
            && list[n].account == bridge && list[n].amount == -fee
  {
    hide ValidAmount, CalculateFee, Quo;
    ValidAmountRounds(CalculateFee(amount, p).fee, |members|);
    FeeBounded(amount, p, |members|);
  }

  /** The scheduled transfers that pay out a burn. */
  function PayoutList(members: seq<AccountId>, bridge: AccountId, recipient: AccountId,
                      amount: int64, p: Percentage): seq<HederaTransfer>
    requires 1 <= |members| <= MAX
  {
    Shares(members, Quo(ChargedFee(amount, p, |members|), |members|))
    + [HederaTransfer(recipient, NetAmount(amount, p, |members|)), HederaTransfer(bridge, Wrap(-(amount as int)))]
  }

  /** Builds a burn's transfer list: the "not divisible" error is unreachable, and the
      recipient gets the amount less the charged fee. */
  method PrepareTransfers(members: seq<AccountId>, bridge: AccountId, recipient: AccountId,
                          amount: int64, p: Percentage)
    returns (recipientAmount: int64, feeAmount: int64, r: Result<seq<HederaTransfer>, string>)
    requires 1 <= |members| <= MAX
    ensures r == Success(PayoutList(members, bridge, recipient, amount, p))
    ensures var n, list := |members|, r.value;
            && |list| == n + 2
            && (forall i :: 0 <= i < n ==> list[i].account == members[i] && n * list[i].amount == feeAmount)
            && list[n] == HederaTransfer(recipient, recipientAmount)
            && list[n + 1].account == bridge && (amount != MIN ==> list[n + 1].amount == -(amount as int))
    ensures feeAmount == ChargedFee(amount, p, |members|)
    ensures Congruent(recipientAmount + feeAmount, amount)
    ensures 0 <= amount && amount * p <= MAX ==> recipientAmount + feeAmount == amount && 0 <= recipientAmount
  {
    hide ValidAmount, CalculateFee, Quo;
    var split := CalculateFee(amount, p);
    var remainder := split.remainder;
    var validFee := ValidAmount(split.fee, |members|);
    if validFee != split.fee {
      remainder := Wrap(remainder + Wrap(split.fee - validFee));
    }
    assert remainder == NetAmount(amount, p, |members|);
    assert Rem(validFee, |members|) == 0 by { ValidAmountRounds(split.fee, |members|); }
    recipientAmount, feeAmount := 0, 0;
    r := CalculateMemberDistribution(members, validFee);
    if r.Failure? {
      return;
    }
    r := Success(r.value + [HederaTransfer(recipient, remainder)] + [HederaTransfer(bridge, Wrap(-(amount as int)))]);
    assert r.value == PayoutList(members, bridge, recipient, amount, p);
    recipientAmount, feeAmount := remainder, validFee;
    NetAndFee(amount, p, |members|);
    ValidAmountRounds(split.fee, |members|);
  }

  lemma NetAndFee(amount: int64, p: Percentage, n: Count)
    ensures Congruent(NetAmount(amount, p, n) + ChargedFee(amount, p, n), amount)
    ensures 0 <= amount && amount * p <= MAX ==>
              NetAmount(amount, p, n) + ChargedFee(amount, p, n) == amount && 0 <= NetAmount(amount, p, n)
  {
    NetPlusFee(amount, p, n);
    var fee := ChargedFee(amount, p, n);
    CongruentSum(Wrap(amount - fee), amount - fee, fee, fee);
    if 0 <= amount && amount * p <= MAX {
      ChargedFeeClosedForm(amount, p, n);
    }
  }

  /** A deposit's fee list sums to exactly zero, whatever the deposit. */
  lemma FeeListZeroSum(members: seq<AccountId>, bridge: AccountId, amount: int64, p: Percentage)
    requires 1 <= |members| <= MAX
    ensures Total(FeeList(members, bridge, ChargedFee(amount, p, |members|))) == 0
  {
    var n := |members|;
    var fee := ChargedFee(amount, p, n);
    ValidAmountRounds(CalculateFee(amount, p).fee, n);
    var shares := Shares(members, Quo(fee, n));
    TotalShares(members, Quo(fee, n));
    TotalAppend(shares, [HederaTransfer(bridge, Wrap(-(fee as int)))]);
    assert n * Quo(fee, n) == fee;
  }

  /** A burn's list sums to zero exactly when the amount can be negated and the amount less
      the fee did not wrap; it is so for every amount within the calculator's bound. */
  lemma PayoutListZeroSum(members: seq<AccountId>, bridge: AccountId, recipient: AccountId,
                          amount: int64, p: Percentage)
    requires 1 <= |members| <= MAX
    ensures Total(PayoutList(members, bridge, recipient, amount, p)) == 0
            <==> amount != MIN && InRange(amount - ChargedFee(amount, p, |members|))
    ensures 0 <= amount && amount * p <= MAX ==> Total(PayoutList(members, bridge, recipient, amount, p)) == 0
  {
    hide ValidAmount, CalculateFee, NetAmount;
    var n := |members|;
    var fee, net := ChargedFee(amount, p, n), NetAmount(amount, p, n);
    ValidAmountRounds(CalculateFee(amount, p).fee, n);
    TotalShares(members, Quo(fee, n));
    var tail := [HederaTransfer(recipient, net), HederaTransfer(bridge, Wrap(-(amount as int)))];
    TotalOfTwo(tail);
    TotalAppend(Shares(members, Quo(fee, n)), tail);
    assert n * Quo(fee, n) == fee;
    NetPlusFee(amount, p, n);
    if amount == MIN { SmallestNotCharged(p, n); }
    PaidTotal(amount, fee);
    if 0 <= amount && amount * p <= MAX {
      ChargedFeeClosedForm(amount, p, n);
    }
  }

  /** The smallest int64 is never charged a positive fee: its product with an even percentage
      wraps to zero, and with an odd one to itself. */
  lemma SmallestNotCharged(p: Percentage, n: Count)
    ensures ChargedFee(MIN, p, n) <= 0
  {
    hide ValidAmount, Wrap;
    SmallestProduct(p);
    FeePlusRemainder(MIN, p);
    ValidAmountRounds(CalculateFee(MIN, p).fee, n);
  }

  lemma SmallestProduct(p: Percentage)
    ensures Wrap(MIN * p) <= 0
  {
    hide Wrap, Congruent;
    var k := p / 2;
    MultipleCongruent(k, 0);
    MultipleCongruent(k, MIN);
    if p == 2 * k {
      assert MIN * p == 0 - k * MODULUS;
      WrapUnique(MIN * p, 0);
    } else {
      assert p == 2 * k + 1 && MIN * p == MIN - k * MODULUS;
      WrapUnique(MIN * p, MIN);
    }
  }

  lemma MultipleCongruent(k: int, x: int)
    ensures Congruent(x, x - k * MODULUS)
  {
    assert x - (x - k * MODULUS) == k * MODULUS;
  }

  lemma PaidTotal(amount: int64, fee: int64)
    ensures amount != MIN ==> (Wrap(amount - fee) + Wrap(-(amount as int)) + fee == 0 <==> InRange(amount - fee))
    ensures amount == MIN && fee <= 0 ==> Wrap(amount - fee) + Wrap(-(amount as int)) + fee != 0
  {}

  // ----- the three places that must agree on the net amount -----

  /** The amount one validator signs for a deposit, read from the transfer's decimal text. */
  function SignedAmount(amount: string, p: Percentage, n: Count): Option<string> {
    match ParseInt(amount)
    case None => None
    case Some(a) => Some(FormatInt(NetAmount(a, p, n)))
  }

  /** The decimal text stored in the deposit's Fee row. */
  function FeeRowAmount(amount: string, p: Percentage, n: Count): Option<string> {
    match ParseInt(amount)
    case None => None
    case Some(a) => Some(FormatInt(ChargedFee(a, p, n)))
  }

  /** The amount a reader of the database expects: stored amount less stored fee. */
  function ExpectedAmount(amount: string, feeAmount: string): Option<string> {
    match (ParseInt(amount), ParseInt(feeAmount))
    case (Some(a), Some(f)) => Some(FormatInt(Wrap((a as int) - f)))
    case _ => None
  }

  /** Within the calculator's bound the fee row's text is the decimal form of the closed form of
      the fee, and the signed text that of the amount less it; the same texts come out of the
      stored ones. */
  lemma TextsClosedForm(amount: string, p: Percentage, n: Count)
    requires ParseInt(amount).Some? && 0 <= ParseInt(amount).value && ParseInt(amount).value * p <= MAX
    ensures var a: int := ParseInt(amount).value;
            var fee := n * (a * p / (MAX_PERCENTAGE * n));
            && 0 <= fee <= a <= MAX
            && FeeRowAmount(amount, p, n) == Some(FormatInt(fee))
            && SignedAmount(amount, p, n) == Some(FormatInt(a - fee))
            && ExpectedAmount(amount, FormatInt(fee)) == Some(FormatInt(a - fee))
  {
    hide NetAmount, ChargedFee, CalculateFee;
    ChargedFeeClosedForm(ParseInt(amount).value, p, n);
    AmountAgreement(amount, p, n);
  }

  /** The steps by which one validator computes both texts, and that a reader expects the signed
      one. */
  lemma SplitSteps(amount: string, p: Percentage, n: Count)
    requires ParseInt(amount).Some?
    ensures var a := ParseInt(amount).value;
            var split := CalculateFee(a, p);
            var valid := ValidAmount(split.fee, n);
            var net := if valid != split.fee then Wrap(split.remainder + Wrap(split.fee - valid)) else split.remainder;
            && ChargedFee(a, p, n) == valid && NetAmount(a, p, n) == net
            && FeeRowAmount(amount, p, n) == Some(FormatInt(valid))
            && SignedAmount(amount, p, n) == Some(FormatInt(net))
            && ExpectedAmount(amount, FormatInt(valid)) == Some(FormatInt(net))
  {
    hide CalculateFee, ValidAmount;
    AmountAgreement(amount, p, n);
  }

  /** Exactly a text that is no int64 has none of them. */
  lemma TextsExistIff(amount: string, p: Percentage, n: Count)
    ensures SignedAmount(amount, p, n).Some? <==> ParseInt(amount).Some?
    ensures FeeRowAmount(amount, p, n).Some? <==> ParseInt(amount).Some?
  {}

  /** The signed amount always equals the expected one, for every text, overflow included. */
  lemma AmountAgreement(amount: string, p: Percentage, n: Count)
    ensures SignedAmount(amount, p, n).Some? <==> FeeRowAmount(amount, p, n).Some?
    ensures SignedAmount(amount, p, n).Some? ==>
              ExpectedAmount(amount, FeeRowAmount(amount, p, n).value) == SignedAmount(amount, p, n)
  {
    hide NetAmount, ChargedFee, Wrap, Congruent;
    var parsed := ParseInt(amount);
    if parsed.Some? {
      NetPlusFee(parsed.value, p, n);
      ParseFormat(ChargedFee(parsed.value, p, n));
    }
  }
}
