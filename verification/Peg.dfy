/** Money over whole runs: deposits, mints, fee payouts, burns and burn payouts of any amounts,
    with any minority of the validators signing and submitting what they like. */
module Peg {
  import opened Int64
  import opened Execution
  import opened Sets
  import opened Sums
  import Fees
  import Quorum

  type Asset = string

  type Balances = map<(Fees.AccountId, Asset), int>

  /** What a signature authorises the contract to mint. */
  datatype Claim = Claim(deposit: TransferId, asset: Asset, amount: int)

  /** The shared configuration, the validators that run the code of this model, and those
      that do anything they like. */
  datatype World = World(cfg: Config, honest: set<nat>, others: set<nat>)

  /** The others are too few to reach a threshold. */
  predicate HonestMajority(w: World) {
    |w.others| < Quorum.Majority(|w.cfg.members|)
  }

  function Validators(w: World): set<nat> { w.honest + w.others }

  /** `deposits` and `burns` are the ids in ledger order; what they contain is in the
      configuration. */
  datatype State = State(
    deposits: seq<TransferId>,
    burns: seq<EventId>,
    balances: Balances,
    supply: map<Asset, int>,
    signatures: set<(nat, Claim)>,
    minted: set<TransferId>,
    submissions: set<(nat, Key)>,
    executed: set<Key>)

  datatype Action =
    | MakeDeposit(id: TransferId)
    | Sign(v: nat, claim: Claim)
    | Mint(claim: Claim)
    | MakeBurn(id: EventId)
    | SubmitKey(v: nat, key: Key)
    | ExecuteKey(key: Key)

  function Amount<K(==)>(m: map<K, int>, k: K): int { if k in m then m[k] else 0 }

  function Balance(s: State, account: Fees.AccountId, asset: Asset): int { Amount(s.balances, (account, asset)) }

  /** The ledger applies a transfer list. */
  function Credit(balances: Balances, asset: Asset, list: seq<Fees.HederaTransfer>): Balances
    decreases |list|
  {
    if list == [] then balances
    else
      var k := (list[0].account, asset);
      Credit(balances[k := Amount(balances, k) + list[0].amount], asset, list[1..])
  }

  /** What a list moves to one account, all its entries together. */
  function Moved(list: seq<Fees.HederaTransfer>, account: Fees.AccountId): int {
    if list == [] then 0 else (if list[0].account == account then list[0].amount else 0) + Moved(list[1..], account)
  }

  /** What a list credits back to the bridge account, as a member or as the recipient: all its
      entries for that account but the last one, which is the debit. */
  function Back(list: seq<Fees.HederaTransfer>, bridge: Fees.AccountId): int {
    if list == [] then 0 else Moved(list[..|list| - 1], bridge)
  }

  // ----- what the bridge owes -----

  function Fee(cfg: Config, memo: Memo): int {
    Fees.ChargedFee(MemoAmount(cfg, memo), cfg.percentage, |cfg.members|)
  }

  function Net(cfg: Config, id: TransferId): int {
    Fees.NetAmount(cfg.deposits(id).amount, cfg.percentage, |cfg.members|)
  }

  /** What executing a key pays out of the bridge account. */
  function Debt(cfg: Config, memo: Memo): int {
    match memo
    case Burn(id) => cfg.events(id).amount
    case Deposit(_) => Fee(cfg, memo)
  }

  function RightClaim(cfg: Config, id: TransferId): Claim {
    Claim(id, cfg.deposits(id).nativeAsset, Net(cfg, id))
  }

  function AssetOf(cfg: Config, memo: Memo): Asset {
    match memo case Burn(id) => cfg.events(id).nativeAsset case Deposit(id) => cfg.deposits(id).nativeAsset
  }

  /** The net amount of a deposit does not fit 64 bits: it wraps to a negative number, which
      the contract does not mint. */
  predicate Stranded(cfg: Config, id: TransferId) { Net(cfg, id) < 0 }

  /** The overflow of amount times percentage that makes a charged fee negative. */
  predicate Overcharged(cfg: Config, memo: Memo) {
    Wrap(MemoAmount(cfg, memo) * cfg.percentage) <= -(Fees.MAX_PERCENTAGE * |cfg.members|)
  }

  // ----- the machine -----

  function Signers(s: State, claim: Claim): set<nat> { set p | p in s.signatures && p.1 == claim :: p.0 }

  function Submitters(s: State, key: Key): set<nat> { set p | p in s.submissions && p.1 == key :: p.0 }

  predicate Made(s: State, memo: Memo) {
    match memo case Burn(id) => id in s.burns case Deposit(id) => id in s.deposits
  }

  /** What the code of an honest validator signs and submits. */
  predicate SignsRight(w: World, s: State, claim: Claim) {
    claim.deposit in s.deposits && claim == RightClaim(w.cfg, claim.deposit)
  }

  predicate SubmitsRight(w: World, s: State, key: Key) {
    key == SubmissionKey(w.cfg, key.memo) && Made(s, key.memo)
  }

  function Apply(w: World, s: State, a: Action): State {
    match a
    case MakeDeposit(id) =>
      var d := w.cfg.deposits(id);
      if id in s.deposits || d.amount < 0 then s
      else
        var k := (w.cfg.bridge, d.nativeAsset);
        s.(deposits := s.deposits + [id], balances := s.balances[k := Amount(s.balances, k) + d.amount])
    case Sign(v, claim) =>
      if v in Validators(w) && (v in w.honest ==> SignsRight(w, s, claim))
      then s.(signatures := s.signatures + {(v, claim)}) else s
    case Mint(claim) =>
      // the contract checks the majority and that the transaction id is new
      if |Signers(s, claim)| >= Quorum.Majority(|w.cfg.members|) && claim.deposit !in s.minted && claim.amount >= 0 then
        s.(minted := s.minted + {claim.deposit},
           supply := s.supply[claim.asset := Amount(s.supply, claim.asset) + claim.amount])
      else s
    case MakeBurn(id) =>
      var e := w.cfg.events(id);
      if id in s.burns || e.amount < 0 || e.amount > Amount(s.supply, e.nativeAsset) then s
      else
        s.(burns := s.burns + [id],
           supply := s.supply[e.nativeAsset := Amount(s.supply, e.nativeAsset) - e.amount])
    case SubmitKey(v, key) =>
      if v in Validators(w) && (v in w.honest ==> SubmitsRight(w, s, key))
      then s.(submissions := s.submissions + {(v, key)}) else s
    case ExecuteKey(key) =>
      // identical submissions are one entity, which executes at most once, and only if its
      // list sums to zero
      if && |Submitters(s, key)| >= Quorum.Majority(|w.cfg.members|)
         && key !in s.executed && Fees.Total(key.transfers) == 0
      then s.(executed := s.executed + {key}, balances := Credit(s.balances, key.nativeAsset, key.transfers))
      else s
  }

  const START := State.State([], [], map[], map[], {}, {}, {}, {})

  function Run(w: World, actions: seq<Action>): State
    decreases |actions|
  {
    if actions == [] then START else Apply(w, Run(w, actions[..|actions| - 1]), actions[|actions| - 1])
  }

  lemma RunExtend(w: World, before: seq<Action>, a: Action)
    ensures Run(w, before + [a]) == Apply(w, Run(w, before), a)
  {
    assert (before + [a])[..|before|] == before;
  }

  // ----- outstanding and settled amounts -----

  function UnmintedOf(cfg: Config, s: State, asset: Asset, id: TransferId): int {
    if cfg.deposits(id).nativeAsset == asset && id !in s.minted && !Stranded(cfg, id) then Net(cfg, id) else 0
  }

  function StrandedOf(cfg: Config, asset: Asset, id: TransferId): int {
    if cfg.deposits(id).nativeAsset == asset && Stranded(cfg, id)
    then cfg.deposits(id).amount - Fee(cfg, Deposit(id)) else 0
  }

  function UnpaidOf(cfg: Config, s: State, asset: Asset, memo: Memo): int {
    if AssetOf(cfg, memo) == asset && SubmissionKey(cfg, memo) !in s.executed then Debt(cfg, memo) else 0
  }

  function KeptOf(cfg: Config, s: State, asset: Asset, memo: Memo): int {
    var key := SubmissionKey(cfg, memo);
    if AssetOf(cfg, memo) == asset && key in s.executed then Back(key.transfers, cfg.bridge) else 0
  }

  /** Net amounts of deposits that the contract has not minted yet. */
  function Unminted(w: World, s: State, asset: Asset): int {
    Sum(s.deposits, id => UnmintedOf(w.cfg, s, asset, id))
  }

  /** Fees whose payout has not been executed. */
  function UnpaidFees(w: World, s: State, asset: Asset): int {
    Sum(s.deposits, id => UnpaidOf(w.cfg, s, asset, Deposit(id)))
  }

  /** The same, counting only what the bridge account has to pay and not what members would
      have to pay it. */
  function PayableFees(w: World, s: State, asset: Asset): int {
    Sum(s.deposits, id => Positive(UnpaidOf(w.cfg, s, asset, Deposit(id))))
  }

  function Positive(x: int): int { if x < 0 then 0 else x }

  /** Burns whose payout has not been executed. */
  function UnpaidBurns(w: World, s: State, asset: Asset): int {
    Sum(s.burns, id => UnpaidOf(w.cfg, s, asset, Burn(id)))
  }

  /** What executed lists credited back to the bridge account. */
  function Kept(w: World, s: State, asset: Asset): int {
    Sum(s.deposits, id => KeptOf(w.cfg, s, asset, Deposit(id))) + Sum(s.burns, id => KeptOf(w.cfg, s, asset, Burn(id)))
  }

  /** Deposits, less fees, that can never be minted. */
  function StrandedSum(w: World, s: State, asset: Asset): int {
    Sum(s.deposits, id => StrandedOf(w.cfg, asset, id))
  }

  // ----- what every state keeps -----

  ghost predicate Shape(w: World, s: State) {
    && Distinct(s.deposits) && Distinct(s.burns)
    && (forall memo :: Made(s, memo) ==> MemoAmount(w.cfg, memo) >= 0)
    && (forall id :: id in s.minted ==> id in s.deposits)
    && (forall p :: p in s.signatures ==> p.0 in Validators(w) && (p.0 in w.honest ==> SignsRight(w, s, p.1)))
    && (forall p :: p in s.submissions ==> p.0 in Validators(w) && (p.0 in w.honest ==> SubmitsRight(w, s, p.1)))
    && (forall key :: key in s.executed ==> SubmitsRight(w, s, key) && Fees.Total(key.transfers) == 0)
    && (forall asset :: Amount(s.supply, asset) >= 0)
  }

  /** A set of validators as large as the threshold has an honest member. */
  lemma HonestIn(w: World, who: set<nat>) returns (v: nat)
    requires HonestMajority(w) && who <= Validators(w) && |who| >= Quorum.Majority(|w.cfg.members|)
    ensures v in who && v in w.honest
  {
    if who * w.honest == {} {
      forall v | v in who ensures v in w.others { assert v !in who * w.honest; }
      SubsetCard(who, w.others);
      assert false;
    }
    v :| v in who * w.honest;
  }

  lemma MintedIsRight(w: World, s: State, claim: Claim)
    requires HonestMajority(w) && Shape(w, s) && |Signers(s, claim)| >= Quorum.Majority(|w.cfg.members|)
    ensures SignsRight(w, s, claim)
  {
    hide RightClaim, SubmissionKey;
    var v := HonestIn(w, Signers(s, claim));
    assert (v, claim) in s.signatures;
  }

  lemma ExecutedIsRight(w: World, s: State, key: Key)
    requires HonestMajority(w) && Shape(w, s) && |Submitters(s, key)| >= Quorum.Majority(|w.cfg.members|)
    ensures SubmitsRight(w, s, key)
  {
    hide RightClaim, SubmissionKey;
    var v := HonestIn(w, Submitters(s, key));
    assert (v, key) in s.submissions;
  }

  lemma ShapeDeposit(w: World, s: State, id: TransferId)
    requires Shape(w, s)
    ensures Shape(w, Apply(w, s, MakeDeposit(id)))
  {
    hide SubmissionKey, RightClaim;
    var t := Apply(w, s, MakeDeposit(id));
    forall memo | Made(s, memo) ensures Made(t, memo) {}
    forall memo | Made(t, memo) ensures MemoAmount(w.cfg, memo) >= 0 { assert Made(s, memo) || memo == Deposit(id); }
  }

  lemma ShapeBurn(w: World, s: State, id: EventId)
    requires Shape(w, s)
    ensures Shape(w, Apply(w, s, MakeBurn(id)))
  {
    hide SubmissionKey, RightClaim;
    var t := Apply(w, s, MakeBurn(id));
    forall memo | Made(s, memo) ensures Made(t, memo) {}
    forall memo | Made(t, memo) ensures MemoAmount(w.cfg, memo) >= 0 { assert Made(s, memo) || memo == Burn(id); }
    forall asset ensures Amount(t.supply, asset) >= 0 { assert Amount(s.supply, asset) >= 0; }
  }

  lemma ShapeMint(w: World, s: State, claim: Claim)
    requires HonestMajority(w) && Shape(w, s)
    ensures Shape(w, Apply(w, s, Mint(claim)))
  {
    hide SubmissionKey, RightClaim;
    var t := Apply(w, s, Mint(claim));
    forall memo ensures Made(t, memo) <==> Made(s, memo) {}
    if t.minted != s.minted { MintedIsRight(w, s, claim); }
    forall asset ensures Amount(t.supply, asset) >= 0 { assert Amount(s.supply, asset) >= 0; }
  }

  lemma ShapeExecute(w: World, s: State, key: Key)
    requires HonestMajority(w) && Shape(w, s)
    ensures Shape(w, Apply(w, s, ExecuteKey(key)))
  {
    hide SubmissionKey, RightClaim;
    var t := Apply(w, s, ExecuteKey(key));
    forall memo ensures Made(t, memo) <==> Made(s, memo) {}
    if t.executed != s.executed { ExecutedIsRight(w, s, key); }
  }

  lemma ShapeSign(w: World, s: State, v: nat, claim: Claim)
    requires Shape(w, s)
    ensures Shape(w, Apply(w, s, Sign(v, claim)))
  {
    hide SubmissionKey, RightClaim;
    var t := Apply(w, s, Sign(v, claim));
    forall memo ensures Made(t, memo) <==> Made(s, memo) {}
  }

  lemma ShapeSubmit(w: World, s: State, v: nat, key: Key)
    requires Shape(w, s)
    ensures Shape(w, Apply(w, s, SubmitKey(v, key)))
  {
    hide SubmissionKey, RightClaim;
    var t := Apply(w, s, SubmitKey(v, key));
    forall memo ensures Made(t, memo) <==> Made(s, memo) {}
  }

  lemma ApplyShape(w: World, s: State, a: Action)
    requires HonestMajority(w) && Shape(w, s)
    ensures Shape(w, Apply(w, s, a))
  {
    hide Shape, Apply;
    match a
    case MakeDeposit(id) => ShapeDeposit(w, s, id);
    case MakeBurn(id) => ShapeBurn(w, s, id);
    case Mint(claim) => ShapeMint(w, s, claim);
    case ExecuteKey(key) => ShapeExecute(w, s, key);
    case Sign(v, claim) => ShapeSign(w, s, v, claim);
    case SubmitKey(v, key) => ShapeSubmit(w, s, v, key);
  }

  lemma {:induction false} RunShape(w: World, actions: seq<Action>)
    requires HonestMajority(w)
    ensures Shape(w, Run(w, actions))
    decreases |actions|
  {
    if actions != [] {
      hide Apply, Shape;
      RunShape(w, actions[..|actions| - 1]);
      ApplyShape(w, Run(w, actions[..|actions| - 1]), actions[|actions| - 1]);
    }
  }

  // ----- what an executed list moves -----

  lemma {:induction false} CreditMoves(balances: Balances, asset: Asset, list: seq<Fees.HederaTransfer>,
                                       account: Fees.AccountId, other: Asset)
    ensures Amount(Credit(balances, asset, list), (account, other))
            == Amount(balances, (account, other)) + if other == asset then Moved(list, account) else 0
    decreases |list|
  {
    if list != [] {
      var k := (list[0].account, asset);
      CreditMoves(balances[k := Amount(balances, k) + list[0].amount], asset, list[1..], account, other);
    }
  }

  lemma {:induction false} MovedAppend(a: seq<Fees.HederaTransfer>, b: seq<Fees.HederaTransfer>,
                                       account: Fees.AccountId)
    ensures Moved(a + b, account) == Moved(a, account) + Moved(b, account)
  {
    if a == [] {
      assert a + b == b;
    } else {
      assert (a + b)[1..] == a[1..] + b;
      MovedAppend(a[1..], b, account);
    }
  }

  lemma {:induction false} MovedShares(members: seq<Fees.AccountId>, share: int64, account: Fees.AccountId)
    ensures var moved := Moved(Fees.Shares(members, share), account);
            && (account !in members ==> moved == 0)
            && (share >= 0 ==> moved >= 0)
            && (share < 0 ==> |members| * share <= moved <= 0)
            && (share < 0 && account in members ==> moved < 0)
  {
    if members != [] {
      assert Fees.Shares(members, share)[1..] == Fees.Shares(members[1..], share);
      assert |members| * share == |members[1..]| * share + share;
      MovedShares(members[1..], share, account);
    }
  }

  lemma MovedOne(entry: Fees.HederaTransfer, account: Fees.AccountId)
    ensures Moved([entry], account) == if entry.account == account then entry.amount else 0
  {
    assert [entry][1..] == [];
  }

  /** The entries of a list before the bridge account's debit. */
  function Front(cfg: Config, memo: Memo): seq<Fees.HederaTransfer> {
    var n := |cfg.members|;
    var shares := Fees.Shares(cfg.members, Quo(Fees.ChargedFee(MemoAmount(cfg, memo), cfg.percentage, n), n));
    match memo
    case Deposit(_) => shares
    case Burn(id) =>
      var e := cfg.events(id);
      shares + [Fees.HederaTransfer(e.recipient, Fees.NetAmount(e.amount, cfg.percentage, n))]
  }

  /** A list that the code builds ends with the bridge account's debit of exactly the debt. */
  lemma DebitIsLast(cfg: Config, memo: Memo)
    requires MemoAmount(cfg, memo) >= 0
    ensures InRange(-Debt(cfg, memo))
    ensures SubmissionKey(cfg, memo).transfers == Front(cfg, memo) + [Fees.HederaTransfer(cfg.bridge, -Debt(cfg, memo))]
  {
    hide Fees.ChargedFee, Fees.NetAmount, Fees.Shares;
    Fees.FeeBounded(MemoAmount(cfg, memo), cfg.percentage, |cfg.members|);
  }

  /** Executing a list of the code moves its debt out of the bridge account, less what the
      list credits back. */
  lemma DebtMoved(cfg: Config, memo: Memo)
    requires MemoAmount(cfg, memo) >= 0
    ensures var list := SubmissionKey(cfg, memo).transfers;
            && Back(list, cfg.bridge) == Moved(Front(cfg, memo), cfg.bridge)
            && Moved(list, cfg.bridge) == Back(list, cfg.bridge) - Debt(cfg, memo)
  {
    hide SubmissionKey, Front, Debt;
    DebitIsLast(cfg, memo);
    var debit := Fees.HederaTransfer(cfg.bridge, -Debt(cfg, memo));
    assert (Front(cfg, memo) + [debit])[..|Front(cfg, memo)|] == Front(cfg, memo);
    MovedAppend(Front(cfg, memo), [debit], cfg.bridge);
    MovedOne(debit, cfg.bridge);
  }

  lemma FeeNegativeIff(cfg: Config, memo: Memo)
    ensures Fee(cfg, memo) < 0 <==> Overcharged(cfg, memo)
  {
    hide Fees.ChargedFee;
    Fees.ChargedFeeNegativeIff(MemoAmount(cfg, memo), cfg.percentage, |cfg.members|);
  }

  /** A list charges the bridge account, as a member, a share of a negative fee, which the
      payment to it as the recipient does not make up for. */
  predicate DebitsTwice(cfg: Config, memo: Memo) {
    && cfg.bridge in cfg.members && Overcharged(cfg, memo)
    && (memo.Burn? ==> cfg.events(memo.eventId).recipient != cfg.bridge)
  }

  /** A list that sums to zero takes more than its debt from the bridge account exactly in that
      case, and never more than a negative fee; and it credits nothing back when the bridge
      account is neither a member nor the recipient. */
  lemma BackSign(cfg: Config, memo: Memo)
    requires MemoAmount(cfg, memo) >= 0 && Fees.Total(SubmissionKey(cfg, memo).transfers) == 0
    ensures var back := Back(SubmissionKey(cfg, memo).transfers, cfg.bridge);
            && (back < 0 <==> DebitsTwice(cfg, memo))
            && (back < 0 ==> Fee(cfg, memo) <= back)
            && (cfg.bridge !in cfg.members && (memo.Burn? ==> cfg.events(memo.eventId).recipient != cfg.bridge)
                ==> back == 0)
  {
    hide SubmissionKey, Fees.ChargedFee, Fees.NetAmount, Fees.Shares, Fees.Total, Overcharged;
    DebtMoved(cfg, memo);
    FeeNegativeIff(cfg, memo);
    ShareOf(cfg, memo);
    var n := |cfg.members|;
    var share := Quo(Fees.ChargedFee(MemoAmount(cfg, memo), cfg.percentage, n), n);
    MovedShares(cfg.members, share, cfg.bridge);
    if memo.Burn? {
      var e := cfg.events(memo.eventId);
      var paid := Fees.HederaTransfer(e.recipient, Fees.NetAmount(e.amount, cfg.percentage, n));
      MovedAppend(Fees.Shares(cfg.members, share), [paid], cfg.bridge);
      MovedOne(paid, cfg.bridge);
      BurnListTotal(cfg, memo);
    }
  }

  /** The charged fee is the members' shares together. */
  lemma ShareOf(cfg: Config, memo: Memo)
    ensures var n := |cfg.members|;
            var share := Quo(Fees.ChargedFee(MemoAmount(cfg, memo), cfg.percentage, n), n);
            Fee(cfg, memo) == n * share && (share < 0 <==> Fee(cfg, memo) < 0)
  {
    hide Fees.ValidAmount, Fees.CalculateFee, Quo;
    var n := |cfg.members|;
    var fee := Fees.CalculateFee(MemoAmount(cfg, memo), cfg.percentage).fee;
    Fees.ValidAmountRounds(fee, n);
    Fees.MulNegativeIff(n, Quo(fee, n));
  }

  /** A payout list that sums to zero pays the recipient nothing negative. */
  lemma BurnListTotal(cfg: Config, memo: Memo)
    requires memo.Burn? && MemoAmount(cfg, memo) >= 0
    ensures Fees.Total(SubmissionKey(cfg, memo).transfers) == 0
            <==> Fees.NetAmount(MemoAmount(cfg, memo), cfg.percentage, |cfg.members|) >= 0
    ensures Fees.Total(SubmissionKey(cfg, memo).transfers) == 0 ==>
              Fees.NetAmount(MemoAmount(cfg, memo), cfg.percentage, |cfg.members|)
              == MemoAmount(cfg, memo) - Fee(cfg, memo)
  {
    hide Fees.ChargedFee, Fees.NetAmount, Fees.PayoutList;
    var e := cfg.events(memo.eventId);
    Fees.PayoutListZeroSum(cfg.members, cfg.bridge, e.recipient, e.amount, cfg.percentage);
    Fees.NetFitsIff(e.amount, cfg.percentage, |cfg.members|);
  }

  /** A deposit that is not stranded splits exactly into net amount and fee, and its net amount
      exceeds what was deposited exactly when it is overcharged. */
  lemma NetExact(cfg: Config, id: TransferId)
    requires cfg.deposits(id).amount >= 0
    ensures !Stranded(cfg, id) ==> Net(cfg, id) == cfg.deposits(id).amount - Fee(cfg, Deposit(id))
    ensures Stranded(cfg, id) ==> cfg.deposits(id).amount - Fee(cfg, Deposit(id)) > MAX
    ensures Fee(cfg, Deposit(id)) < 0 <==> Overcharged(cfg, Deposit(id))
  {
    hide Fees.ChargedFee, Fees.NetAmount;
    Fees.NetFitsIff(cfg.deposits(id).amount, cfg.percentage, |cfg.members|);
    Fees.FeeBounded(cfg.deposits(id).amount, cfg.percentage, |cfg.members|);
    Fees.ChargedFeeNegativeIff(cfg.deposits(id).amount, cfg.percentage, |cfg.members|);
  }

  // ----- every action keeps the peg -----

  /** What one deposit, and one burn, contributes to the bridge balance. */
  function DepositTerm(cfg: Config, s: State, asset: Asset): TransferId -> int {
    id => UnmintedOf(cfg, s, asset, id) + StrandedOf(cfg, asset, id)
          + UnpaidOf(cfg, s, asset, Deposit(id)) + KeptOf(cfg, s, asset, Deposit(id))
  }

  function BurnTerm(cfg: Config, s: State, asset: Asset): EventId -> int {
    id => UnpaidOf(cfg, s, asset, Burn(id)) + KeptOf(cfg, s, asset, Burn(id))
  }

  predicate Pegged(w: World, s: State, asset: Asset) {
    Balance(s, w.cfg.bridge, asset)
    == Amount(s.supply, asset) + Sum(s.deposits, DepositTerm(w.cfg, s, asset)) + Sum(s.burns, BurnTerm(w.cfg, s, asset))
  }

  lemma DepositPegged(w: World, s: State, id: TransferId, asset: Asset)
    requires Shape(w, s) && Pegged(w, s, asset)
    ensures Pegged(w, Apply(w, s, MakeDeposit(id)), asset)
  {
    hide SubmissionKey, Net, Fee, Back;
    var t := Apply(w, s, MakeDeposit(id));
    if t != s {
      assert !Made(s, Deposit(id)) && SubmissionKey(w.cfg, Deposit(id)) !in s.executed;
      SumSame(s.deposits, DepositTerm(w.cfg, s, asset), DepositTerm(w.cfg, t, asset));
      SumAppend(s.deposits, id, DepositTerm(w.cfg, t, asset));
      SumSame(s.burns, BurnTerm(w.cfg, s, asset), BurnTerm(w.cfg, t, asset));
      NetExact(w.cfg, id);
    }
  }

  lemma MintPegged(w: World, s: State, claim: Claim, asset: Asset)
    requires HonestMajority(w) && Shape(w, s) && Pegged(w, s, asset)
    ensures Pegged(w, Apply(w, s, Mint(claim)), asset)
  {
    hide SubmissionKey, Net, Fee, Back;
    var t := Apply(w, s, Mint(claim));
    if t.minted != s.minted {
      MintedIsRight(w, s, claim);
      SumChanged(s.deposits, claim.deposit, DepositTerm(w.cfg, s, asset), DepositTerm(w.cfg, t, asset));
      SumSame(s.burns, BurnTerm(w.cfg, s, asset), BurnTerm(w.cfg, t, asset));
    }
  }

  lemma BurnPegged(w: World, s: State, id: EventId, asset: Asset)
    requires Shape(w, s) && Pegged(w, s, asset)
    ensures Pegged(w, Apply(w, s, MakeBurn(id)), asset)
  {
    hide SubmissionKey, Net, Fee, Back;
    var t := Apply(w, s, MakeBurn(id));
    if t.burns != s.burns {
      assert !Made(s, Burn(id)) && SubmissionKey(w.cfg, Burn(id)) !in s.executed;
      SumSame(s.deposits, DepositTerm(w.cfg, s, asset), DepositTerm(w.cfg, t, asset));
      SumSame(s.burns, BurnTerm(w.cfg, s, asset), BurnTerm(w.cfg, t, asset));
      SumAppend(s.burns, id, BurnTerm(w.cfg, t, asset));
    }
  }

  /** Executing a key settles its own memo, and no other. */
  lemma Settles(w: World, s: State, t: State, key: Key, asset: Asset, memo: Memo)
    requires SubmitsRight(w, s, key) && MemoAmount(w.cfg, key.memo) >= 0
    requires key !in s.executed && t.executed == s.executed + {key} && t.minted == s.minted
    ensures UnpaidOf(w.cfg, t, asset, memo) + KeptOf(w.cfg, t, asset, memo)
            == UnpaidOf(w.cfg, s, asset, memo) + KeptOf(w.cfg, s, asset, memo)
               + if memo == key.memo && key.nativeAsset == asset then Moved(key.transfers, w.cfg.bridge) else 0
  {
    hide SubmissionKey, Debt, Back, Moved;
    DebtMoved(w.cfg, key.memo);
    KeyAsset(w.cfg, key.memo);
  }

  lemma ExecuteTerms(w: World, s: State, t: State, key: Key, asset: Asset)
    requires Distinct(s.deposits) && Distinct(s.burns) && SubmitsRight(w, s, key) && MemoAmount(w.cfg, key.memo) >= 0
    requires key !in s.executed && t == s.(executed := s.executed + {key}, balances := t.balances)
    ensures Sum(t.deposits, DepositTerm(w.cfg, t, asset)) + Sum(t.burns, BurnTerm(w.cfg, t, asset))
            == Sum(s.deposits, DepositTerm(w.cfg, s, asset)) + Sum(s.burns, BurnTerm(w.cfg, s, asset))
               + if key.nativeAsset == asset then Moved(key.transfers, w.cfg.bridge) else 0
  {
    hide SubmissionKey, UnpaidOf, KeptOf, StrandedOf, Net, Moved;
    forall memo { Settles(w, s, t, key, asset, memo); }
    var deposit := if key.memo.Deposit? then key.memo.transferId else "";
    var burn := if key.memo.Burn? then key.memo.eventId else "";
    SumChanged(s.deposits, deposit, DepositTerm(w.cfg, s, asset), DepositTerm(w.cfg, t, asset));
    SumChanged(s.burns, burn, BurnTerm(w.cfg, s, asset), BurnTerm(w.cfg, t, asset));
  }

  lemma ExecutePegged(w: World, s: State, key: Key, asset: Asset)
    requires HonestMajority(w) && Shape(w, s) && Pegged(w, s, asset)
    ensures Pegged(w, Apply(w, s, ExecuteKey(key)), asset)
  {
    hide SubmissionKey, DepositTerm, BurnTerm, Moved, Fees.Total;
    var t := Apply(w, s, ExecuteKey(key));
    if t.executed != s.executed {
      ExecutedIsRight(w, s, key);
      assert Made(s, key.memo);
      ExecuteTerms(w, s, t, key, asset);
      CreditMoves(s.balances, key.nativeAsset, key.transfers, w.cfg.bridge, asset);
    }
  }

  lemma KeyAsset(cfg: Config, memo: Memo)
    ensures SubmissionKey(cfg, memo).nativeAsset == AssetOf(cfg, memo)
  {
    hide Fees.PayoutList, Fees.FeeList;
  }

  lemma SignPegged(w: World, s: State, a: Action, asset: Asset)
    requires Pegged(w, s, asset) && (a.Sign? || a.SubmitKey?)
    ensures Pegged(w, Apply(w, s, a), asset)
  {
    hide SubmissionKey, Net, Fee, Back;
    var t := Apply(w, s, a);
    SumSame(s.deposits, DepositTerm(w.cfg, s, asset), DepositTerm(w.cfg, t, asset));
    SumSame(s.burns, BurnTerm(w.cfg, s, asset), BurnTerm(w.cfg, t, asset));
  }

  lemma ApplyPegged(w: World, s: State, a: Action, asset: Asset)
    requires HonestMajority(w) && Shape(w, s) && Pegged(w, s, asset)
    ensures Pegged(w, Apply(w, s, a), asset)
  {
    hide Shape, Pegged, Apply;
    match a
    case MakeDeposit(id) => DepositPegged(w, s, id, asset);
    case MakeBurn(id) => BurnPegged(w, s, id, asset);
    case Mint(claim) => MintPegged(w, s, claim, asset);
    case ExecuteKey(key) => ExecutePegged(w, s, key, asset);
    case Sign(v, claim) => SignPegged(w, s, a, asset);
    case SubmitKey(v, key) => SignPegged(w, s, a, asset);
  }

  lemma {:induction false} RunPegged(w: World, actions: seq<Action>, asset: Asset)
    requires HonestMajority(w)
    ensures Pegged(w, Run(w, actions), asset)
    decreases |actions|
  {
    if actions != [] {
      hide Apply, Shape, Pegged;
      RunPegged(w, actions[..|actions| - 1], asset);
      RunShape(w, actions[..|actions| - 1]);
      ApplyPegged(w, Run(w, actions[..|actions| - 1]), actions[|actions| - 1], asset);
    }
  }

  /** The terms of deposits and burns, sorted by kind. */
  lemma TermsByKind(w: World, s: State, asset: Asset)
    ensures Sum(s.deposits, DepositTerm(w.cfg, s, asset)) + Sum(s.burns, BurnTerm(w.cfg, s, asset))
            == Unminted(w, s, asset) + UnpaidFees(w, s, asset) + UnpaidBurns(w, s, asset)
               + Kept(w, s, asset) + StrandedSum(w, s, asset)
  {
    hide UnmintedOf, StrandedOf, UnpaidOf, KeptOf;
    var minting: TransferId -> int := id => UnmintedOf(w.cfg, s, asset, id);
    var stranded: TransferId -> int := id => StrandedOf(w.cfg, asset, id);
    var fees: TransferId -> int := id => UnpaidOf(w.cfg, s, asset, Deposit(id));
    var kept: TransferId -> int := id => KeptOf(w.cfg, s, asset, Deposit(id));
    var claims: TransferId -> int := id => minting(id) + stranded(id);
    var paying: TransferId -> int := id => fees(id) + kept(id);
    SumPlus(s.deposits, claims, paying, DepositTerm(w.cfg, s, asset));
    SumPlus(s.deposits, minting, stranded, claims);
    SumPlus(s.deposits, fees, kept, paying);
    var burns: EventId -> int := id => UnpaidOf(w.cfg, s, asset, Burn(id));
    var keptBurns: EventId -> int := id => KeptOf(w.cfg, s, asset, Burn(id));
    SumPlus(s.burns, burns, keptBurns, BurnTerm(w.cfg, s, asset));
    SumSame(s.deposits, minting, id => UnmintedOf(w.cfg, s, asset, id));
    SumSame(s.deposits, stranded, id => StrandedOf(w.cfg, asset, id));
    SumSame(s.deposits, fees, id => UnpaidOf(w.cfg, s, asset, Deposit(id)));
    SumSame(s.deposits, kept, id => KeptOf(w.cfg, s, asset, Deposit(id)));
    SumSame(s.burns, burns, id => UnpaidOf(w.cfg, s, asset, Burn(id)));
    SumSame(s.burns, keptBurns, id => KeptOf(w.cfg, s, asset, Burn(id)));
  }

  /** The peg, for every asset in every reachable state and for deposits and burns of any
      amount: the bridge balance equals wrapped supply, plus everything deposited and not
      minted, charged and not distributed, burned and not paid out, plus what executed lists
      credited back to the bridge account, plus deposits that can never be minted. */
  lemma PegInvariant(w: World, actions: seq<Action>, asset: Asset)
    requires HonestMajority(w)
    ensures var s := Run(w, actions);
            Balance(s, w.cfg.bridge, asset)
            == Amount(s.supply, asset) + Unminted(w, s, asset) + UnpaidFees(w, s, asset) + UnpaidBurns(w, s, asset)
               + Kept(w, s, asset) + StrandedSum(w, s, asset)
  {
    hide Run;
    RunPegged(w, actions, asset);
    TermsByKind(w, Run(w, actions), asset);
  }

  // ----- when the peg is exact -----

  /** The bridge balance is what the bridge owes, and nothing else. */
  predicate Exact(w: World, s: State, asset: Asset) {
    Balance(s, w.cfg.bridge, asset)
    == Amount(s.supply, asset) + Unminted(w, s, asset) + UnpaidFees(w, s, asset) + UnpaidBurns(w, s, asset)
  }

  predicate NothingStranded(w: World, s: State, asset: Asset) {
    forall id :: id in s.deposits && w.cfg.deposits(id).nativeAsset == asset ==> !Stranded(w.cfg, id)
  }

  predicate NothingCreditedBack(w: World, s: State, asset: Asset) {
    forall key :: key in s.executed && key.nativeAsset == asset ==> Back(key.transfers, w.cfg.bridge) == 0
  }

  /** No executed list took more than its debt from the bridge account. */
  predicate NothingDebitedTwice(w: World, s: State, asset: Asset) {
    forall key :: key in s.executed && key.nativeAsset == asset ==> !DebitsTwice(w.cfg, key.memo)
  }

  lemma KeptSign(w: World, s: State, asset: Asset, memo: Memo)
    requires Shape(w, s) && Made(s, memo)
    ensures KeptOf(w.cfg, s, asset, memo) < 0
            <==> AssetOf(w.cfg, memo) == asset && SubmissionKey(w.cfg, memo) in s.executed && DebitsTwice(w.cfg, memo)
    ensures KeptOf(w.cfg, s, asset, memo) < 0 ==> Fee(w.cfg, memo) <= KeptOf(w.cfg, s, asset, memo)
    ensures AssetOf(w.cfg, memo) == asset && SubmissionKey(w.cfg, memo) in s.executed ==>
              KeptOf(w.cfg, s, asset, memo) == Back(SubmissionKey(w.cfg, memo).transfers, w.cfg.bridge)
  {
    hide SubmissionKey, Back, Fee, Fees.Total, DebitsTwice;
    if AssetOf(w.cfg, memo) == asset && SubmissionKey(w.cfg, memo) in s.executed {
      BackSign(w.cfg, memo);
    }
  }

  lemma KeptNothing(w: World, s: State, asset: Asset, memo: Memo)
    requires || AssetOf(w.cfg, memo) != asset || SubmissionKey(w.cfg, memo) !in s.executed
             || NothingCreditedBack(w, s, asset)
    ensures KeptOf(w.cfg, s, asset, memo) == 0
  {
    hide SubmissionKey, Back;
    KeyAsset(w.cfg, memo);
  }

  /** What executed lists kept is never negative, and zero exactly when none credited the
      bridge account back. */
  lemma KeptZeroIff(w: World, s: State, asset: Asset)
    requires Shape(w, s) && NothingDebitedTwice(w, s, asset)
    ensures Kept(w, s, asset) >= 0
    ensures Kept(w, s, asset) == 0 <==> NothingCreditedBack(w, s, asset)
    ensures Sum(s.deposits, id => KeptOf(w.cfg, s, asset, Deposit(id))) >= 0
    ensures Sum(s.burns, id => KeptOf(w.cfg, s, asset, Burn(id))) >= 0
  {
    hide SubmissionKey, Back, KeptOf, Fees.Total, DebitsTwice, Fee;
    forall memo | Made(s, memo) ensures KeptOf(w.cfg, s, asset, memo) >= 0 {
      KeptSign(w, s, asset, memo);
      KeyAsset(w.cfg, memo);
    }
    var fees: TransferId -> int, burns: EventId -> int :=
      id => KeptOf(w.cfg, s, asset, Deposit(id)), id => KeptOf(w.cfg, s, asset, Burn(id));
    SumNonNegative(s.deposits, fees);
    SumNonNegative(s.burns, burns);
    if Kept(w, s, asset) == 0 {
      forall key | key in s.executed && key.nativeAsset == asset ensures Back(key.transfers, w.cfg.bridge) == 0 {
        assert SubmitsRight(w, s, key);
        KeyAsset(w.cfg, key.memo);
        KeptSign(w, s, asset, key.memo);
        match key.memo
        case Deposit(id) => assert fees(id) == 0;
        case Burn(id) => assert burns(id) == 0;
      }
    } else if NothingCreditedBack(w, s, asset) {
      forall memo | Made(s, memo) ensures KeptOf(w.cfg, s, asset, memo) == 0 { KeptNothing(w, s, asset, memo); }
      assert forall id :: id in s.deposits ==> Made(s, Deposit(id)) && fees(id) == 0;
      assert forall id :: id in s.burns ==> Made(s, Burn(id)) && burns(id) == 0;
    }
  }

  lemma StrandedZeroIff(w: World, s: State, asset: Asset)
    requires Shape(w, s)
    ensures StrandedSum(w, s, asset) >= 0
    ensures StrandedSum(w, s, asset) == 0 <==> NothingStranded(w, s, asset)
  {
    hide Stranded, Fee;
    var term: TransferId -> int := id => StrandedOf(w.cfg, asset, id);
    forall id | id in s.deposits
      ensures term(id) >= 0 && (term(id) == 0 <==> (w.cfg.deposits(id).nativeAsset == asset ==> !Stranded(w.cfg, id)))
    {
      assert Made(s, Deposit(id));
      NetExact(w.cfg, id);
    }
    SumNonNegative(s.deposits, term);
  }

  /** The peg is exact if and only if nothing was kept or stranded, that is, unless an executed
      list debited the bridge account twice, if and only if no deposit is stranded and no
      executed list credits the bridge account: then the balance is wrapped supply, unminted
      deposits, unpaid fees and unpaid burns together. */
  lemma PegExactIff(w: World, actions: seq<Action>, asset: Asset)
    requires HonestMajority(w)
    ensures var s := Run(w, actions);
            && (Exact(w, s, asset) <==> Kept(w, s, asset) + StrandedSum(w, s, asset) == 0)
            && (NothingDebitedTwice(w, s, asset) ==>
                  (Exact(w, s, asset) <==> NothingStranded(w, s, asset) && NothingCreditedBack(w, s, asset)))
  {
    hide Run, Shape, NothingStranded, NothingCreditedBack, NothingDebitedTwice, Kept, StrandedSum,
         Unminted, UnpaidFees, UnpaidBurns;
    var s := Run(w, actions);
    RunShape(w, actions);
    PegInvariant(w, actions, asset);
    if NothingDebitedTwice(w, s, asset) {
      KeptZeroIff(w, s, asset);
      StrandedZeroIff(w, s, asset);
    }
  }

  // ----- whether the bridge is ever short -----

  /** The bridge account can meet all outstanding claims at once: those on it, without what
      members would have to pay it. */
  predicate Covers(w: World, s: State, asset: Asset) {
    Balance(s, w.cfg.bridge, asset)
    >= Amount(s.supply, asset) + Unminted(w, s, asset) + PayableFees(w, s, asset) + UnpaidBurns(w, s, asset)
  }

  /** A deposit that authorises more than was deposited: amount times percentage overflows to
      a negative fee, and the amount less that fee still fits 64 bits. */
  predicate Inflated(cfg: Config, id: TransferId) {
    Overcharged(cfg, Deposit(id)) && !Stranded(cfg, id)
  }

  /** Amounts within the calculator's 64-bit bound are never overcharged, so they are neither
      inflated nor debited twice. */
  lemma BoundedNotOvercharged(cfg: Config, memo: Memo)
    requires MemoAmount(cfg, memo) >= 0 && MemoAmount(cfg, memo) * cfg.percentage <= MAX
    ensures !Overcharged(cfg, memo)
    ensures memo.Deposit? ==> !Inflated(cfg, memo.transferId)
    ensures !DebitsTwice(cfg, memo)
  {
    hide Wrap;
    Fees.SafeFee(MemoAmount(cfg, memo), cfg.percentage);
  }

  // ----- in one state -----

  /** A deposit or burn that the bridge account is out of pocket for: an inflated deposit,
      unless its fee list, by which the members make up for it, has been executed without
      debiting the bridge account too; or a burn whose executed list debited it twice. */
  predicate Uncovered(w: World, s: State, asset: Asset, memo: Memo) {
    && Made(s, memo) && AssetOf(w.cfg, memo) == asset
    && match memo
       case Deposit(id) =>
         Inflated(w.cfg, id) && (SubmissionKey(w.cfg, memo) !in s.executed || DebitsTwice(w.cfg, memo))
       case Burn(_) => SubmissionKey(w.cfg, memo) in s.executed && DebitsTwice(w.cfg, memo)
  }

  /** Nothing in the bridge account makes up for it: no stranded deposit, and no executed list
      that credits the account. */
  predicate NoSurplus(w: World, s: State, asset: Asset) {
    && NothingStranded(w, s, asset)
    && forall key :: key in s.executed && key.nativeAsset == asset ==> Back(key.transfers, w.cfg.bridge) <= 0
  }

  /** What a deposit leaves in the bridge account beyond the claims it gives rise to. */
  function Slack(cfg: Config, s: State, asset: Asset): TransferId -> int {
    id => DepositTerm(cfg, s, asset)(id)
          - UnmintedOf(cfg, s, asset, id) - Positive(UnpaidOf(cfg, s, asset, Deposit(id)))
  }

  lemma SlackOf(cfg: Config, s: State, asset: Asset, id: TransferId)
    ensures var unpaid := UnpaidOf(cfg, s, asset, Deposit(id));
            Slack(cfg, s, asset)(id)
            == StrandedOf(cfg, asset, id) + unpaid + KeptOf(cfg, s, asset, Deposit(id)) - Positive(unpaid)
  {
    hide UnmintedOf, StrandedOf, UnpaidOf, KeptOf;
    var d := DepositTerm(cfg, s, asset);
    assert d(id) == UnmintedOf(cfg, s, asset, id) + StrandedOf(cfg, asset, id)
                    + UnpaidOf(cfg, s, asset, Deposit(id)) + KeptOf(cfg, s, asset, Deposit(id));
  }

  lemma SlackSign(w: World, s: State, asset: Asset, id: TransferId)
    requires Shape(w, s) && id in s.deposits
    ensures Slack(w.cfg, s, asset)(id) < 0 <==> Uncovered(w, s, asset, Deposit(id))
    ensures NoSurplus(w, s, asset) ==> Slack(w.cfg, s, asset)(id) <= 0
  {
    hide SubmissionKey, Back, Net, Overcharged, Fee, Stranded, Fees.Total, UnmintedOf, DebitsTwice;
    var memo := Deposit(id);
    assert Made(s, memo) && MemoAmount(w.cfg, memo) >= 0;
    NetExact(w.cfg, id);
    KeptSign(w, s, asset, memo);
    KeyAsset(w.cfg, memo);
    Fees.FeeBounded(MemoAmount(w.cfg, memo), w.cfg.percentage, |w.cfg.members|);
    DebitNeedsOvercharge(w.cfg, memo);
    SlackOf(w.cfg, s, asset, id);
  }

  lemma DebitNeedsOvercharge(cfg: Config, memo: Memo)
    ensures DebitsTwice(cfg, memo) ==> Overcharged(cfg, memo)
  {
    hide Overcharged;
  }

  /** The balance beyond all outstanding claims. */
  lemma SurplusIsSlack(w: World, s: State, asset: Asset)
    requires Pegged(w, s, asset)
    ensures Balance(s, w.cfg.bridge, asset)
            - (Amount(s.supply, asset) + Unminted(w, s, asset) + PayableFees(w, s, asset) + UnpaidBurns(w, s, asset))
            == Sum(s.deposits, Slack(w.cfg, s, asset)) + Sum(s.burns, id => KeptOf(w.cfg, s, asset, Burn(id)))
  {
    hide UnmintedOf, StrandedOf, UnpaidOf, KeptOf;
    var minting: TransferId -> int := id => UnmintedOf(w.cfg, s, asset, id);
    var payable: TransferId -> int := id => Positive(UnpaidOf(w.cfg, s, asset, Deposit(id)));
    var claims: TransferId -> int := id => minting(id) + payable(id);
    SumPlus(s.deposits, minting, payable, claims);
    SumPlus(s.deposits, claims, Slack(w.cfg, s, asset), DepositTerm(w.cfg, s, asset));
    var burns: EventId -> int := id => UnpaidOf(w.cfg, s, asset, Burn(id));
    var keptBurns: EventId -> int := id => KeptOf(w.cfg, s, asset, Burn(id));
    SumPlus(s.burns, burns, keptBurns, BurnTerm(w.cfg, s, asset));
  }

  /** Two lists of terms whose sums together are not negative, if none of the terms is
      positive, consist of zeros. */
  lemma NonePositive<A, B>(a: seq<A>, f: A -> int, b: seq<B>, g: B -> int)
    requires forall x :: x in a ==> f(x) <= 0
    requires forall y :: y in b ==> g(y) <= 0
    requires Sum(a, f) + Sum(b, g) >= 0
    ensures (forall x :: x in a ==> f(x) == 0) && forall y :: y in b ==> g(y) == 0
  {
    var f': A -> int, g': B -> int := x => -f(x), y => -g(y);
    SumNonNegative(a, f');
    SumNonNegative(b, g');
    SumNegated(a, f, f');
    SumNegated(b, g, g');
    assert forall x :: x in a ==> f'(x) == 0;
    assert forall y :: y in b ==> g'(y) == 0;
  }

  /** In every reachable state the bridge account covers all outstanding claims unless a deposit
      or burn is uncovered; and where nothing makes up for it, only then. */
  lemma CoversIff(w: World, actions: seq<Action>, asset: Asset)
    requires HonestMajority(w)
    ensures var s := Run(w, actions);
            && ((forall memo :: !Uncovered(w, s, asset, memo)) ==> Covers(w, s, asset))
            && (NoSurplus(w, s, asset) ==> (Covers(w, s, asset) <==> forall memo :: !Uncovered(w, s, asset, memo)))
  {
    hide Run, Shape, Pegged, Uncovered, NoSurplus, KeptOf, Slack, Unminted, PayableFees, UnpaidBurns;
    var s := Run(w, actions);
    RunShape(w, actions);
    RunPegged(w, actions, asset);
    SurplusIsSlack(w, s, asset);
    var slack := Slack(w.cfg, s, asset);
    var kept: EventId -> int := id => KeptOf(w.cfg, s, asset, Burn(id));
    forall id | id in s.deposits { SlackSign(w, s, asset, id); }
    forall id | id in s.burns { BurnSign(w, s, asset, id); }
    if forall memo :: !Uncovered(w, s, asset, memo) {
      SumNonNegative(s.deposits, slack);
      SumNonNegative(s.burns, kept);
    } else if NoSurplus(w, s, asset) && Covers(w, s, asset) {
      NonePositive(s.deposits, slack, s.burns, kept);
      var memo :| Uncovered(w, s, asset, memo);
      UncoveredMade(w, s, asset, memo);
      assert false;
    }
  }

  lemma UncoveredMade(w: World, s: State, asset: Asset, memo: Memo)
    requires Uncovered(w, s, asset, memo)
    ensures Made(s, memo)
  {
    hide SubmissionKey, Inflated, DebitsTwice;
  }

  lemma BurnSign(w: World, s: State, asset: Asset, id: EventId)
    requires Shape(w, s) && id in s.burns
    ensures KeptOf(w.cfg, s, asset, Burn(id)) < 0 <==> Uncovered(w, s, asset, Burn(id))
    ensures NoSurplus(w, s, asset) ==> KeptOf(w.cfg, s, asset, Burn(id)) <= 0
  {
    hide SubmissionKey, Back, Fees.Total, DebitsTwice;
    assert Made(s, Burn(id));
    KeptSign(w, s, asset, Burn(id));
    KeyAsset(w.cfg, Burn(id));
  }

  /** Where all claims are covered, so is every single payout that is outstanding. */
  lemma EveryPayoutCovered(w: World, actions: seq<Action>, asset: Asset, memo: Memo)
    requires HonestMajority(w) && Covers(w, Run(w, actions), asset)
    requires Made(Run(w, actions), memo) && AssetOf(w.cfg, memo) == asset
    requires SubmissionKey(w.cfg, memo) !in Run(w, actions).executed
    ensures Balance(Run(w, actions), w.cfg.bridge, asset) >= Amount(Run(w, actions).supply, asset) + Debt(w.cfg, memo)
  {
    hide Run, Net, Fee, SubmissionKey;
    var s := Run(w, actions);
    RunShape(w, actions);
    var minting: TransferId -> int := id => UnmintedOf(w.cfg, s, asset, id);
    var payable: TransferId -> int := id => Positive(UnpaidOf(w.cfg, s, asset, Deposit(id)));
    var burns: EventId -> int := id => UnpaidOf(w.cfg, s, asset, Burn(id));
    SumNonNegative(s.deposits, minting);
    SumNonNegative(s.deposits, payable);
    forall id | id in s.burns ensures burns(id) >= 0 { assert Made(s, Burn(id)); }
    SumNonNegative(s.burns, burns);
    match memo
    case Deposit(id) => assert payable(id) == Positive(Debt(w.cfg, memo));
    case Burn(id) => assert burns(id) == Debt(w.cfg, memo);
  }

  // ----- over all runs -----

  /** One inflated deposit leaves the bridge short as soon as it is made. */
  lemma InflatedDepositLeavesShort(w: World, id: TransferId)
    requires w.cfg.deposits(id).amount >= 0 && Inflated(w.cfg, id)
    ensures !Covers(w, Run(w, [MakeDeposit(id)]), w.cfg.deposits(id).nativeAsset)
  {
    hide Net, Fee, SubmissionKey, Overcharged;
    var d := w.cfg.deposits(id);
    RunExtend(w, [], MakeDeposit(id));
    assert [] + [MakeDeposit(id)] == [MakeDeposit(id)];
    var s := Run(w, [MakeDeposit(id)]);
    assert s.deposits == [id] && s.burns == [];
    assert Balance(s, w.cfg.bridge, d.nativeAsset) == d.amount;
    NetExact(w.cfg, id);
    var minting: TransferId -> int := x => UnmintedOf(w.cfg, s, d.nativeAsset, x);
    var payable: TransferId -> int := x => Positive(UnpaidOf(w.cfg, s, d.nativeAsset, Deposit(x)));
    SumOne(id, minting);
    SumOne(id, payable);
  }

  /** A burn whose payout can be executed, and takes more from the bridge account than was
      burned. */
  predicate Drains(cfg: Config, asset: Asset, id: EventId) {
    var e := cfg.events(id);
    && e.nativeAsset == asset && e.amount >= 0 && InRange(e.amount - Fee(cfg, Burn(id)))
    && DebitsTwice(cfg, Burn(id))
  }

  /** What the contract can mint for a deposit, and what it has minted for it. */
  function BackingTerm(cfg: Config, asset: Asset): TransferId -> int {
    id => if Mintable(cfg, asset, id) then Net(cfg, id) else 0
  }

  predicate Mintable(cfg: Config, asset: Asset, id: TransferId) {
    cfg.deposits(id).nativeAsset == asset && cfg.deposits(id).amount >= 0 && !Stranded(cfg, id)
  }

  function MintedTerm(cfg: Config, minted: set<TransferId>, asset: Asset): TransferId -> int {
    id => if cfg.deposits(id).nativeAsset == asset && id in minted then Net(cfg, id) else 0
  }

  /** So much can be burned: the validators reach a threshold at all, and there are deposits
      that mint it. */
  ghost predicate Fundable(w: World, asset: Asset, amount: int) {
    && |Validators(w)| >= Quorum.Majority(|w.cfg.members|)
    && exists ids :: Distinct(ids) && Sum(ids, BackingTerm(w.cfg, asset)) >= amount
  }

  /** Supply, and every burn, is covered by what was minted. */
  ghost predicate Backed(w: World, s: State, asset: Asset) {
    var minted := Sum(s.deposits, MintedTerm(w.cfg, s.minted, asset));
    && Amount(s.supply, asset) <= minted
    && (forall id :: id in s.burns && w.cfg.events(id).nativeAsset == asset ==> w.cfg.events(id).amount <= minted)
    && (forall id :: id in s.minted ==> !Stranded(w.cfg, id))
    && (s.executed != {} ==> |Validators(w)| >= Quorum.Majority(|w.cfg.members|))
  }

  lemma MintBacked(w: World, s: State, claim: Claim, asset: Asset)
    requires HonestMajority(w) && Shape(w, s) && Backed(w, s, asset)
    ensures Backed(w, Apply(w, s, Mint(claim)), asset)
  {
    hide SubmissionKey, Net, Fees.Total;
    var t := Apply(w, s, Mint(claim));
    if t.minted != s.minted {
      MintedIsRight(w, s, claim);
      SumChanged(s.deposits, claim.deposit, MintedTerm(w.cfg, s.minted, asset), MintedTerm(w.cfg, t.minted, asset));
    }
  }

  lemma DepositBacked(w: World, s: State, id: TransferId, asset: Asset)
    requires Shape(w, s) && Backed(w, s, asset)
    ensures Backed(w, Apply(w, s, MakeDeposit(id)), asset)
  {
    hide SubmissionKey, Net, Fees.Total;
    if !(id in s.deposits) { SumAppend(s.deposits, id, MintedTerm(w.cfg, s.minted, asset)); }
  }

  lemma ExecuteBacked(w: World, s: State, key: Key, asset: Asset)
    requires HonestMajority(w) && Shape(w, s) && Backed(w, s, asset)
    ensures Backed(w, Apply(w, s, ExecuteKey(key)), asset)
  {
    hide SubmissionKey, Net, Fees.Total;
    var t := Apply(w, s, ExecuteKey(key));
    if t.executed != s.executed {
      forall v | v in Submitters(s, key) ensures v in Validators(w) { assert (v, key) in s.submissions; }
      SubsetCard(Submitters(s, key), Validators(w));
    }
  }

  lemma ApplyBacked(w: World, s: State, a: Action, asset: Asset)
    requires HonestMajority(w) && Shape(w, s) && Backed(w, s, asset)
    ensures Backed(w, Apply(w, s, a), asset)
  {
    hide SubmissionKey, Net, Fees.Total, Shape;
    match a
    case MakeDeposit(id) => DepositBacked(w, s, id, asset);
    case Mint(claim) => MintBacked(w, s, claim, asset);
    case ExecuteKey(key) => ExecuteBacked(w, s, key, asset);
    case _ =>
  }

  lemma {:induction false} RunBacked(w: World, actions: seq<Action>, asset: Asset)
    requires HonestMajority(w)
    ensures Backed(w, Run(w, actions), asset)
    decreases |actions|
  {
    if actions != [] {
      hide Apply, Shape, Backed;
      RunBacked(w, actions[..|actions| - 1], asset);
      RunShape(w, actions[..|actions| - 1]);
      ApplyBacked(w, Run(w, actions[..|actions| - 1]), actions[|actions| - 1], asset);
    }
  }

  /** A payout that was executed could be funded. */
  lemma ExecutedFundable(w: World, actions: seq<Action>, asset: Asset, id: EventId)
    requires HonestMajority(w) && id in Run(w, actions).burns && w.cfg.events(id).nativeAsset == asset
    requires SubmissionKey(w.cfg, Burn(id)) in Run(w, actions).executed
    ensures Fundable(w, asset, w.cfg.events(id).amount)
  {
    hide Run, SubmissionKey, Net, Fees.Total;
    RunShape(w, actions);
    RunBacked(w, actions, asset);
    var s := Run(w, actions);
    forall x | x in s.deposits ensures MintedTerm(w.cfg, s.minted, asset)(x) <= BackingTerm(w.cfg, asset)(x) {
      assert Made(s, Deposit(x));
    }
    SumAtMost(s.deposits, MintedTerm(w.cfg, s.minted, asset), BackingTerm(w.cfg, asset));
  }

  // ----- a run in which a burn is paid out twice -----

  lemma {:induction false} SignAll(w: World, before: seq<Action>, claim: Claim, who: set<nat>)
    returns (after: seq<Action>)
    requires who <= Validators(w) && SignsRight(w, Run(w, before), claim)
    ensures var s := Run(w, before); Run(w, after) == s.(signatures := s.signatures + set v | v in who :: (v, claim))
    decreases |who|
  {
    hide Run, RightClaim;
    if who == {} {
      after := before;
    } else {
      var v :| v in who;
      var some := SignAll(w, before, claim, who - {v});
      after := some + [Sign(v, claim)];
      RunExtend(w, some, Sign(v, claim));
      assert who == who - {v} + {v};
      assert Run(w, after).signatures == Run(w, before).signatures + set v | v in who :: (v, claim);
    }
  }

  lemma {:induction false} SubmitAll(w: World, before: seq<Action>, key: Key, who: set<nat>)
    returns (after: seq<Action>)
    requires who <= Validators(w) && SubmitsRight(w, Run(w, before), key)
    ensures var s := Run(w, before); Run(w, after) == s.(submissions := s.submissions + set v | v in who :: (v, key))
    decreases |who|
  {
    hide Run, SubmissionKey;
    if who == {} {
      after := before;
    } else {
      var v :| v in who;
      var some := SubmitAll(w, before, key, who - {v});
      after := some + [SubmitKey(v, key)];
      RunExtend(w, some, SubmitKey(v, key));
      assert who == who - {v} + {v};
      assert Run(w, after).submissions == Run(w, before).submissions + set v | v in who :: (v, key);
    }
  }

  /** Deposits only, each mintable and minted. */
  ghost predicate Funded(w: World, s: State, asset: Asset, ids: seq<TransferId>) {
    && s.burns == [] && s.executed == {} && s.submissions == {}
    && (forall id :: id in s.deposits ==> id in ids && Mintable(w.cfg, asset, id))
    && (forall id :: id in s.minted ==> id in ids)
    && Amount(s.supply, asset) == Sum(ids, BackingTerm(w.cfg, asset))
  }

  /** Depositing, signing and minting one after the other funds what the deposits can mint. */
  lemma {:induction false} Fund(w: World, asset: Asset, ids: seq<TransferId>) returns (actions: seq<Action>)
    requires |Validators(w)| >= Quorum.Majority(|w.cfg.members|) && Distinct(ids)
    ensures Funded(w, Run(w, actions), asset, ids)
    decreases |ids|
  {
    if ids == [] {
      actions := [];
    } else {
      hide Run;
      var n := |ids| - 1;
      var before := Fund(w, asset, ids[..n]);
      assert ids == ids[..n] + [ids[n]] && ids[n] !in ids[..n];
      actions := FundOne(w, asset, ids[..n], ids[n], before);
    }
  }

  lemma FundOne(w: World, asset: Asset, ids: seq<TransferId>, id: TransferId, before: seq<Action>)
    returns (actions: seq<Action>)
    requires |Validators(w)| >= Quorum.Majority(|w.cfg.members|) && id !in ids
    requires Funded(w, Run(w, before), asset, ids)
    ensures Funded(w, Run(w, actions), asset, ids + [id])
  {
    hide Run, Net, Validators;
    SumAppend(ids, id, BackingTerm(w.cfg, asset));
    if Mintable(w.cfg, asset, id) {
      var claim := RightClaim(w.cfg, id);
      RunExtend(w, before, MakeDeposit(id));
      var deposited := before + [MakeDeposit(id)];
      assert id in Run(w, deposited).deposits;
      var signed := SignAll(w, deposited, claim, Validators(w));
      var s := Run(w, signed);
      forall v | v in Validators(w) ensures v in Signers(s, claim) { assert (v, claim) in s.signatures; }
      SubsetCard(Validators(w), Signers(s, claim));
      RunExtend(w, signed, Mint(claim));
      actions := signed + [Mint(claim)];
    } else {
      actions := before;
    }
  }

  /** Paying out one burn that the deposits `ids` fund. */
  lemma PayOut(w: World, asset: Asset, ids: seq<TransferId>, id: EventId, funded: seq<Action>)
    returns (actions: seq<Action>)
    requires |Validators(w)| >= Quorum.Majority(|w.cfg.members|) && Funded(w, Run(w, funded), asset, ids)
    requires w.cfg.events(id).nativeAsset == asset
    requires 0 <= w.cfg.events(id).amount <= Sum(ids, BackingTerm(w.cfg, asset))
    requires Fees.Total(SubmissionKey(w.cfg, Burn(id)).transfers) == 0
    ensures var s, t := Run(w, funded), Run(w, actions);
            t.executed == {SubmissionKey(w.cfg, Burn(id))} && t.burns == [id] && t.deposits == s.deposits
  {
    hide Run, SubmissionKey, BackingTerm, Fees.Total, Validators, Mintable;
    var key := SubmissionKey(w.cfg, Burn(id));
    RunExtend(w, funded, MakeBurn(id));
    var burned := funded + [MakeBurn(id)];
    assert Run(w, burned).burns == [id];
    var submitted := SubmitAll(w, burned, key, Validators(w));
    var s := Run(w, submitted);
    forall v | v in Validators(w) ensures v in Submitters(s, key) { assert (v, key) in s.submissions; }
    SubsetCard(Validators(w), Submitters(s, key));
    RunExtend(w, submitted, ExecuteKey(key));
    actions := submitted + [ExecuteKey(key)];
  }

  /** A burn that drains the bridge account, made and paid out with the deposits that fund it
      and no others, leaves the bridge short. */
  lemma DrainingBurnLeavesShort(w: World, asset: Asset, id: EventId) returns (actions: seq<Action>)
    requires HonestMajority(w) && Drains(w.cfg, asset, id) && Fundable(w, asset, w.cfg.events(id).amount)
    ensures !Covers(w, Run(w, actions), asset)
  {
    hide Run, SubmissionKey, Fee, DebitsTwice, Covers, Back, Fees.Total, Validators, Stranded, BackingTerm;
    var ids :| Distinct(ids) && Sum(ids, BackingTerm(w.cfg, asset)) >= w.cfg.events(id).amount;
    var funded := Fund(w, asset, ids);
    PayoutSumsToZero(w.cfg, asset, id);
    actions := PayOut(w, asset, ids, id, funded);
    BackSign(w.cfg, Burn(id));
    KeyAsset(w.cfg, Burn(id));
    assert NoSurplus(w, Run(w, actions), asset);
    assert Uncovered(w, Run(w, actions), asset, Burn(id));
    CoversIff(w, actions, asset);
  }

  lemma PayoutSumsToZero(cfg: Config, asset: Asset, id: EventId)
    requires Drains(cfg, asset, id)
    ensures Fees.Total(SubmissionKey(cfg, Burn(id)).transfers) == 0
  {
    hide Fees.PayoutList, Fees.ChargedFee, DebitsTwice;
    var e := cfg.events(id);
    Fees.PayoutListZeroSum(cfg.members, cfg.bridge, e.recipient, e.amount, cfg.percentage);
  }

  /** The bridge is never short of an asset, in any run, if and only if no deposit of that
      asset can be inflated, and no burn of it that drains the bridge account can be funded. */
  lemma NeverShortIff(w: World, asset: Asset)
    requires HonestMajority(w)
    ensures (forall actions :: Covers(w, Run(w, actions), asset))
            <==> && (forall id :: w.cfg.deposits(id).nativeAsset == asset && w.cfg.deposits(id).amount >= 0 ==>
                       !Inflated(w.cfg, id))
                 && (forall id :: Drains(w.cfg, asset, id) ==> !Fundable(w, asset, w.cfg.events(id).amount))
  {
    hide Run, Covers, Inflated, Fundable, Drains;
    if id :| w.cfg.deposits(id).nativeAsset == asset && w.cfg.deposits(id).amount >= 0 && Inflated(w.cfg, id) {
      InflatedDepositLeavesShort(w, id);
    } else if id :| Drains(w.cfg, asset, id) && Fundable(w, asset, w.cfg.events(id).amount) {
      var actions := DrainingBurnLeavesShort(w, asset, id);
    } else {
      forall actions ensures Covers(w, Run(w, actions), asset) {
        CoversIff(w, actions, asset);
        forall memo ensures !Uncovered(w, Run(w, actions), asset, memo) { NoneUncovered(w, actions, asset, memo); }
      }
    }
  }

  lemma NoneUncovered(w: World, actions: seq<Action>, asset: Asset, memo: Memo)
    requires HonestMajority(w)
    requires forall id :: w.cfg.deposits(id).nativeAsset == asset && w.cfg.deposits(id).amount >= 0 ==>
               !Inflated(w.cfg, id)
    requires forall id :: Drains(w.cfg, asset, id) ==> !Fundable(w, asset, w.cfg.events(id).amount)
    ensures !Uncovered(w, Run(w, actions), asset, memo)
  {
    hide Run, Inflated, SubmissionKey, DebitsTwice, Fundable, Fee, Fees.Total;
    RunShape(w, actions);
    var s := Run(w, actions);
    if Uncovered(w, s, asset, memo) {
      assert MemoAmount(w.cfg, memo) >= 0;
      if memo.Burn? {
        PayoutFits(w.cfg, memo);
        assert Drains(w.cfg, asset, memo.eventId);
        ExecutedFundable(w, actions, asset, memo.eventId);
      }
    }
  }

  lemma PayoutFits(cfg: Config, memo: Memo)
    requires memo.Burn? && Fees.Total(SubmissionKey(cfg, memo).transfers) == 0
    ensures InRange(MemoAmount(cfg, memo) - Fee(cfg, memo))
  {
    hide Fees.PayoutList, Fees.ChargedFee;
    var e := cfg.events(memo.eventId);
    Fees.PayoutListZeroSum(cfg.members, cfg.bridge, e.recipient, e.amount, cfg.percentage);
  }

  /** Where every amount of an asset is within the calculator's bound, the bridge is never
      short of it. */
  lemma NeverShortWithinBound(w: World, asset: Asset, actions: seq<Action>)
    requires HonestMajority(w)
    requires forall memo :: AssetOf(w.cfg, memo) == asset && MemoAmount(w.cfg, memo) >= 0 ==>
               MemoAmount(w.cfg, memo) * w.cfg.percentage <= MAX
    ensures Covers(w, Run(w, actions), asset)
  {
    hide Run, Covers, Inflated, Fundable, DebitsTwice, Overcharged;
    forall id | w.cfg.deposits(id).nativeAsset == asset && w.cfg.deposits(id).amount >= 0 ensures !Inflated(w.cfg, id) {
      assert AssetOf(w.cfg, Deposit(id)) == asset;
      BoundedNotOvercharged(w.cfg, Deposit(id));
    }
    forall id ensures !Drains(w.cfg, asset, id) {
      if w.cfg.events(id).nativeAsset == asset && w.cfg.events(id).amount >= 0 {
        assert AssetOf(w.cfg, Burn(id)) == asset;
        BoundedNotOvercharged(w.cfg, Burn(id));
      }
    }
    NeverShortIff(w, asset);
  }

  // ----- an inflated deposit -----

  const SAMPLE_AMOUNT: int64 := 92233720368548

  /** One validator, a fee of 100 percent, and deposits one unit above the calculator's bound. */
  function SampleWorld(): World {
    World(Config(["0.0.1"], "0.0.9", 100000, _ => BurnEvent(0, "", ""), _ => Transfer(SAMPLE_AMOUNT, "HBAR")), {0}, {})
  }

  /** The bridge is short after an honest run: the contract mints about twice the deposit. */
  lemma InflatedMint()
    ensures var w := SampleWorld();
            var claim := RightClaim(w.cfg, "id");
            var s := Run(w, [MakeDeposit("id"), Sign(0, claim), Mint(claim)]);
            && HonestMajority(w)
            && Balance(s, w.cfg.bridge, "HBAR") == SAMPLE_AMOUNT
            && Amount(s.supply, "HBAR") == 184467440737095
  {
    hide Run, RightClaim, Validators;
    var w := SampleWorld();
    var claim := RightClaim(w.cfg, "id");
    SampleClaim();
    SampleHonest();
    StartRun(w);
    var a, b, c := MakeDeposit("id"), Sign(0, claim), Mint(claim);
    RunExtend(w, [], a);
    RunExtend(w, [a], b);
    RunExtend(w, [a, b], c);
    assert [] + [a] == [a] && [a] + [b] == [a, b] && [a, b] + [c] == [a, b, c];
    var s1, s2 := Run(w, [a]), Run(w, [a, b]);
    assert s1.deposits == ["id"];
    assert s2 == s1.(signatures := {(0, claim)});
    assert Signers(s2, claim) == {0} by { assert (0, claim) in s2.signatures; }
  }

  lemma StartRun(w: World)
    ensures Run(w, []) == START
  {}

  lemma SampleHonest()
    ensures 0 in Validators(SampleWorld()) && 0 in SampleWorld().honest
  {}

  lemma SampleClaim()
    ensures RightClaim(SampleWorld().cfg, "id") == Claim("id", "HBAR", 184467440737095)
  {
    var p: Fees.Percentage, n: Fees.Count := 100000, 1;
    WrapUnique(SAMPLE_AMOUNT * p, SAMPLE_AMOUNT * p - MODULUS);
    assert Quo(SAMPLE_AMOUNT * p - MODULUS, 100000) == -92233720368547;
    Fees.ValidAmountRounds(-92233720368547, n);
  }
}
