/** Scheduled execution at N validators: the burn handler, the fee transfer of a deposit,
    and the callbacks that update the BurnEvent and Fee rows. Every database write is a step
    of its own and may fail; the steps of all tasks of all validators interleave. */
module Execution {
  import opened Wrappers
  import opened Int64
  import Fees
  import Text

  type EventId = string
  type TransferId = string
  type TxId = string
  type ScheduleId = string

  datatype Status = Initial | Submitted | Completed | Failed

  predicate Terminal(status: Status) { status.Completed? || status.Failed? }

  /** What a scheduled transaction is for; its memo is the id. */
  datatype Memo = Burn(eventId: EventId) | Deposit(transferId: TransferId)

  datatype BurnRow = BurnRow(
    amount: int64,
    recipient: string,
    status: Status,
    scheduleId: ScheduleId,
    txId: Option<TxId>)

  datatype FeeRow = FeeRow(scheduleId: ScheduleId, amount: string, status: Status, owner: Memo)

  datatype BurnEvent = BurnEvent(amount: int64, recipient: string, nativeAsset: string)

  datatype Transfer = Transfer(amount: int64, nativeAsset: string)

  type Members = m: seq<Fees.AccountId> | 1 <= |m| <= MAX witness [""]

  /** The configuration all validators share, and the burns and deposits on the ledgers. */
  datatype Config = Config(
    members: Members,
    bridge: Fees.AccountId,
    percentage: Fees.Percentage,
    events: EventId -> BurnEvent,
    deposits: TransferId -> Transfer)

  /** What identifies a scheduled transaction: identical submissions collapse to one. */
  datatype Key = Key(memo: Memo, nativeAsset: string, transfers: seq<Fees.HederaTransfer>)

  function SubmissionKey(cfg: Config, memo: Memo): (key: Key)
    ensures key.memo == memo
  {
    match memo
    case Burn(id) =>
      var e := cfg.events(id);
      Key(memo, e.nativeAsset, Fees.PayoutList(cfg.members, cfg.bridge, e.recipient, e.amount, cfg.percentage))
    case Deposit(id) =>
      var d := cfg.deposits(id);
      var fee := Fees.ChargedFee(d.amount, cfg.percentage, |cfg.members|);
      Key(memo, d.nativeAsset, Fees.FeeList(cfg.members, cfg.bridge, fee))
  }

  /** What is submitted for a burn: its asset; an equal share for every member, in order; for the
      recipient of the event, and no one else, what is left; and the debit of the whole amount
      from the bridge account. */
  lemma PayoutEntries(cfg: Config, id: EventId)
    ensures var e, n, key := cfg.events(id), |cfg.members|, SubmissionKey(cfg, Burn(id));
            var list := key.transfers;
            && key.memo == Burn(id) && key.nativeAsset == e.nativeAsset && |list| == n + 2
            && (forall i :: 0 <= i < n ==> list[i].account == cfg.members[i] && list[i].amount == list[0].amount)
            && list[n].account == e.recipient && list[n + 1].account == cfg.bridge
            && (e.amount != MIN ==> list[n + 1].amount == -(e.amount as int))
            && Congruent(list[n].amount + n * list[0].amount, e.amount)
  {
    hide Fees.ValidAmount, Fees.CalculateFee, Fees.NetAmount, Quo, Congruent;
    var e, n := cfg.events(id), |cfg.members|;
    Fees.NetAndFee(e.amount, cfg.percentage, n);
    Fees.ValidAmountRounds(Fees.CalculateFee(e.amount, cfg.percentage).fee, n);
  }

  /** What is submitted for a deposit: its asset; an equal share of the fee for every member, in
      order; and the debit of the fee from the bridge account. */
  lemma FeeEntries(cfg: Config, id: TransferId)
    ensures var d, n, key := cfg.deposits(id), |cfg.members|, SubmissionKey(cfg, Deposit(id));
            var list := key.transfers;
            && key.memo == Deposit(id) && key.nativeAsset == d.nativeAsset && |list| == n + 1
            && (forall i :: 0 <= i < n ==> list[i].account == cfg.members[i] && list[i].amount == list[0].amount)
            && list[n].account == cfg.bridge && list[n].amount == -(n * list[0].amount)
            && n * list[0].amount == Fees.ChargedFee(d.amount, cfg.percentage, n)
  {
    hide Fees.ValidAmount, Fees.CalculateFee, Quo;
    var d, n := cfg.deposits(id), |cfg.members|;
    Fees.FeeBounded(d.amount, cfg.percentage, n);
    Fees.ValidAmountRounds(Fees.CalculateFee(d.amount, cfg.percentage).fee, n);
  }

  function MemoAmount(cfg: Config, memo: Memo): int64 {
    match memo case Burn(id) => cfg.events(id).amount case Deposit(id) => cfg.deposits(id).amount
  }

  function FeeAmount(cfg: Config, memo: Memo): string {
    Text.FormatInt(Fees.ChargedFee(MemoAmount(cfg, memo), cfg.percentage, |cfg.members|))
  }

  // ----- one validator's tables -----

  datatype Tables = Tables(burns: map<EventId, BurnRow>, fees: map<TxId, FeeRow>)

  /** The fee table's two unique columns: the transaction id and the schedule id. */
  predicate FeeConflict(tb: Tables, txId: TxId, scheduleId: ScheduleId) {
    txId in tb.fees || exists k :: k in tb.fees && tb.fees[k].scheduleId == scheduleId
  }

  function CreateFee(tb: Tables, txId: TxId, row: FeeRow, ok: bool): Tables {
    if ok && !FeeConflict(tb, txId, row.scheduleId) then tb.(fees := tb.fees[txId := row]) else tb
  }

  /** An update of a row that does not exist affects nothing and reports no error. */
  function SetFeeStatus(tb: Tables, txId: TxId, status: Status): Tables {
    if txId in tb.fees then tb.(fees := tb.fees[txId := tb.fees[txId].(status := status)]) else tb
  }

  function SetBurnStatus(tb: Tables, id: EventId, status: Status): Tables {
    if id in tb.burns then tb.(burns := tb.burns[id := tb.burns[id].(status := status)]) else tb
  }

  /** The transaction id column of the burn table is unique. */
  predicate TxIdTaken(tb: Tables, id: EventId, txId: TxId) {
    exists k :: k in tb.burns && k != id && tb.burns[k].txId == Some(txId)
  }

  function SetBurnSubmitted(tb: Tables, id: EventId, schedule: Schedule): Tables {
    if id in tb.burns then
      tb.(burns := tb.burns[id := tb.burns[id].(status := Submitted,
                                                scheduleId := schedule.scheduleId, txId := Some(schedule.txId))])
    else tb
  }

  // ----- tasks -----

  datatype Schedule = Schedule(txId: TxId, scheduleId: ScheduleId)

  /** Where a task stands: at a database write, at the submission, or polling the mirror node. */
  datatype Stage =
    | Create
    | Submit
    | FailBurn(txId: TxId)
    | FailFee(txId: TxId)
    | SubmittedBurn(schedule: Schedule)
    | SubmittedFee(schedule: Schedule)
    | Waiting(txId: TxId)
    | MinedBurn(txId: TxId, success: bool)
    | MinedFee(txId: TxId, success: bool)
    | Finished

  function Outcome(success: bool): Status { if success then Completed else Failed }

  datatype Written = Written(tables: Tables, stage: Stage)

  /** One database write of a task and where the task continues; `ok` is whether the database
      accepts statements at that moment. */
  function Write(cfg: Config, tb: Tables, memo: Memo, stage: Stage, ok: bool): Written {
    match stage
    case Create =>
      if memo.Burn? && ok && memo.eventId !in tb.burns then
        var e := cfg.events(memo.eventId);
        Written(tb.(burns := tb.burns[memo.eventId := BurnRow(e.amount, e.recipient, Initial, "", None)]), Submit)
      else Written(tb, Finished)
    case FailBurn(txId) =>
      if memo.Burn? && ok then Written(SetBurnStatus(tb, memo.eventId, Failed), FailFee(txId))
      else Written(tb, Finished)
    case FailFee(txId) =>
      // a deposit's failed fee row is written without a transaction id
      Written(CreateFee(tb, if memo.Burn? then txId else "", FeeRow("", FeeAmount(cfg, memo), Failed, memo), ok),
              Finished)
    case SubmittedBurn(schedule) =>
      if memo.Burn? && ok && !TxIdTaken(tb, memo.eventId, schedule.txId) then
        Written(SetBurnSubmitted(tb, memo.eventId, schedule), SubmittedFee(schedule))
      else Written(tb, Waiting(schedule.txId))
    case SubmittedFee(schedule) =>
      Written(CreateFee(tb, schedule.txId, FeeRow(schedule.scheduleId, FeeAmount(cfg, memo), Submitted, memo), ok),
              Waiting(schedule.txId))
    case MinedBurn(txId, success) =>
      if memo.Burn? && ok then Written(SetBurnStatus(tb, memo.eventId, Outcome(success)), MinedFee(txId, success))
      else Written(tb, Finished)
    case MinedFee(txId, success) => Written(if ok then SetFeeStatus(tb, txId, Outcome(success)) else tb, Finished)
    case _ => Written(tb, stage)
  }

  datatype Task = Task(v: nat, memo: Memo, stage: Stage)

  // ----- the network -----

  /** The scheduled entities by content, the outcome of the executed ones, and for every
      transaction id handed out the memo it was handed out for. */
  datatype Network = Network(schedules: map<Key, Schedule>, results: map<TxId, bool>, issued: map<TxId, Memo>)

  /** How a submission ends. `Accepted` is a receipt with status SUCCESS or
      IDENTICAL_SCHEDULE_ALREADY_CREATED; a receipt can be lost after the entity was created. */
  datatype Reply = NoResponse | SubmitError | ReceiptError(created: bool) | Rejected | Accepted

  /** The tables of the validators, the network, and all tasks ever started. */
  datatype State = State(tables: seq<Tables>, net: Network, tasks: seq<Task>)

  datatype Action =
    | Deliver(v: nat, id: EventId)              // a burn event reaches a handler, any number of times
    | StartFee(v: nat, id: TransferId)          // processing a deposit starts its fee transfer
    | SubmitTx(i: nat, reply: Reply, ids: Schedule)
    | WriteRow(i: nat, ok: bool)
    | Mine(txId: TxId, success: bool)           // the network executes a scheduled transaction
    | Observe(i: nat)                           // the mirror node reports the outcome to a polling task
    | Abandon(i: nat)                           // mirror error, or the process stops

  function Goto(s: State, i: nat, stage: Stage): State
    requires i < |s.tasks|
  {
    s.(tasks := s.tasks[i := s.tasks[i].(stage := stage)])
  }

  function FailStage(memo: Memo, txId: TxId): Stage { if memo.Burn? then FailBurn(txId) else FailFee(txId) }

  function SuccessStage(memo: Memo, schedule: Schedule): Stage {
    if memo.Burn? then SubmittedBurn(schedule) else SubmittedFee(schedule)
  }

  /** The network after a submission with fresh ids. */
  function Submission(net: Network, key: Key, reply: Reply, ids: Schedule): Network {
    var creates := key !in net.schedules && (reply == Accepted || reply == ReceiptError(true));
    if reply.NoResponse? then net
    else Network(
      if creates then net.schedules[key := ids] else net.schedules,
      net.results,
      net.issued[ids.txId := key.memo])
  }

  function SubmitStep(cfg: Config, s: State, i: nat, reply: Reply, ids: Schedule): State
    requires i < |s.tasks|
  {
    var memo := s.tasks[i].memo;
    var key := SubmissionKey(cfg, memo);
    var net := Submission(s.net, key, reply, ids);
    match reply
    case NoResponse => Goto(s, i, Finished)
    case Accepted =>
      var schedule := if key in net.schedules then net.schedules[key] else ids;
      Goto(s.(net := net), i, SuccessStage(memo, schedule))
    case _ => Goto(s.(net := net), i, FailStage(memo, ids.txId))
  }

  function WriteStep(cfg: Config, s: State, i: nat, ok: bool): State
    requires i < |s.tasks| && s.tasks[i].v < |s.tables|
  {
    var task := s.tasks[i];
    var w := Write(cfg, s.tables[task.v], task.memo, task.stage, ok);
    Goto(s, i, w.stage).(tables := s.tables[task.v := w.tables])
  }

  function Apply(cfg: Config, s: State, a: Action): (t: State)
    ensures |t.tables| == |s.tables|
  {
    match a
    case Deliver(v, id) =>
      if v < |s.tables| then s.(tasks := s.tasks + [Task(v, Burn(id), Create)]) else s
    case StartFee(v, id) =>
      if v < |s.tables| then s.(tasks := s.tasks + [Task(v, Deposit(id), Submit)]) else s
    case SubmitTx(i, reply, ids) =>
      if i < |s.tasks| && s.tasks[i].stage.Submit? && ids.txId != "" && ids.txId !in s.net.issued
      then SubmitStep(cfg, s, i, reply, ids) else s
    case WriteRow(i, ok) =>
      if i < |s.tasks| && s.tasks[i].v < |s.tables| then WriteStep(cfg, s, i, ok) else s
    case Mine(txId, success) =>
      if txId !in s.net.results then s.(net := s.net.(results := s.net.results[txId := success])) else s
    case Observe(i) =>
      if i < |s.tasks| && s.tasks[i].stage.Waiting? && s.tasks[i].stage.txId in s.net.results then
        var txId, success := s.tasks[i].stage.txId, s.net.results[s.tasks[i].stage.txId];
        Goto(s, i, if s.tasks[i].memo.Burn? then MinedBurn(txId, success) else MinedFee(txId, success))
      else s
    case Abandon(i) => if i < |s.tasks| then Goto(s, i, Finished) else s
  }

  function Start(n: nat): State {
    State(seq(n, _ => Tables(map[], map[])), Network(map[], map[], map[]), [])
  }

  /** The state that a sequence of actions leads N validators to. */
  function Run(cfg: Config, n: nat, actions: seq<Action>): (s: State)
    ensures |s.tables| == n
    decreases |actions|
  {
    if actions == [] then Start(n) else Apply(cfg, Run(cfg, n, actions[..|actions| - 1]), actions[|actions| - 1])
  }

  lemma RunExtend(cfg: Config, n: nat, before: seq<Action>, a: Action)
    ensures Run(cfg, n, before + [a]) == Apply(cfg, Run(cfg, n, before), a)
  {
    assert (before + [a])[..|before|] == before;
  }

  // ----- the invariant -----

  /** The fee rows of a burn event. */
  function OwnedFees(tb: Tables, memo: Memo): map<TxId, FeeRow> {
    map k | k in tb.fees && tb.fees[k].owner == memo :: tb.fees[k]
  }

  /** The Fee row never runs ahead of its BurnEvent row, and a terminal Fee row has the
      terminal status of the BurnEvent row. */
  predicate InLockstep(burn: Status, fee: Status) {
    match fee
    case Initial => false
    case Submitted => !burn.Initial?
    case Completed => burn.Completed?
    case Failed => burn.Failed?
  }

  /** The Fee row is about the scheduled transaction its BurnEvent row records, or about a
      failed execution that recorded none. */
  predicate SameTransaction(burn: BurnRow, txId: TxId, fee: FeeRow) {
    if burn.txId.Some? then burn.txId.value == txId && burn.scheduleId == fee.scheduleId
    else fee.status.Failed? && fee.scheduleId == ""
  }

  predicate Agrees(tb: Tables, k: TxId)
    requires k in tb.fees && tb.fees[k].owner.Burn?
  {
    var id := tb.fees[k].owner.eventId;
    && id in tb.burns
    && InLockstep(tb.burns[id].status, tb.fees[k].status)
    && SameTransaction(tb.burns[id], k, tb.fees[k])
  }

  predicate Lockstep(tb: Tables) {
    forall k :: k in tb.fees && tb.fees[k].owner.Burn? ==> Agrees(tb, k)
  }

  predicate ScheduledFor(cfg: Config, net: Network, memo: Memo, schedule: Schedule) {
    var key := SubmissionKey(cfg, memo);
    key in net.schedules && net.schedules[key] == schedule
  }

  predicate Issued(net: Network, memo: Memo, txId: TxId) {
    txId in net.issued && net.issued[txId] == memo
  }

  predicate Resolved(net: Network, txId: TxId, success: bool) {
    txId in net.results && net.results[txId] == success
  }

  /** The only fee row of the event, if there is one, is pending under this id. */
  predicate PendingFee(tb: Tables, memo: Memo, txId: TxId) {
    forall k :: k in OwnedFees(tb, memo) ==> k == txId && tb.fees[k].status.Submitted?
  }

  predicate BurnIs(tb: Tables, id: EventId, allowed: set<Status>) {
    id in tb.burns && tb.burns[id].status in allowed
  }

  predicate Records(burn: BurnRow, schedule: Schedule) {
    burn.txId == Some(schedule.txId) && burn.scheduleId == schedule.scheduleId
  }

  predicate BurnTaskOk(cfg: Config, tb: Tables, net: Network, memo: Memo, stage: Stage)
    requires memo.Burn?
  {
    var id := memo.eventId;
    match stage
    case Create => true
    case Submit => BurnIs(tb, id, {Initial}) && tb.burns[id].txId.None? && OwnedFees(tb, memo) == map[]
    case FailBurn(txId) =>
      BurnIs(tb, id, {Initial}) && tb.burns[id].txId.None? && OwnedFees(tb, memo) == map[] && Issued(net, memo, txId)
    case FailFee(txId) =>
      BurnIs(tb, id, {Failed}) && tb.burns[id].txId.None? && OwnedFees(tb, memo) == map[] && Issued(net, memo, txId)
    case SubmittedBurn(schedule) =>
      BurnIs(tb, id, {Initial}) && OwnedFees(tb, memo) == map[] && ScheduledFor(cfg, net, memo, schedule)
    case SubmittedFee(schedule) =>
      && BurnIs(tb, id, {Submitted}) && Records(tb.burns[id], schedule) && OwnedFees(tb, memo) == map[]
      && ScheduledFor(cfg, net, memo, schedule)
    case Waiting(txId) => BurnIs(tb, id, {Initial, Submitted}) && PendingFee(tb, memo, txId) && Issued(net, memo, txId)
    case MinedBurn(txId, success) =>
      BurnIs(tb, id, {Initial, Submitted}) && PendingFee(tb, memo, txId) && Issued(net, memo, txId)
    case MinedFee(txId, success) =>
      BurnIs(tb, id, {Outcome(success)}) && PendingFee(tb, memo, txId) && Issued(net, memo, txId)
    case Finished => true
  }

  predicate DepositTaskOk(cfg: Config, net: Network, memo: Memo, stage: Stage)
    requires memo.Deposit?
  {
    match stage
    case Submit => true
    case FailFee(_) => true
    case SubmittedFee(schedule) => ScheduledFor(cfg, net, memo, schedule)
    case Waiting(txId) => Issued(net, memo, txId)
    case MinedFee(txId, success) => Issued(net, memo, txId) && Resolved(net, txId, success)
    case Finished => true
    case _ => false
  }

  predicate TaskOk(cfg: Config, s: State, task: Task) {
    && task.v < |s.tables|
    && (if task.memo.Burn? then BurnTaskOk(cfg, s.tables[task.v], s.net, task.memo, task.stage)
        else DepositTaskOk(cfg, s.net, task.memo, task.stage))
  }

  predicate Active(task: Task) { task.memo.Burn? && !task.stage.Create? && !task.stage.Finished? }

  predicate TablesOk(cfg: Config, tb: Tables, net: Network) {
    && Lockstep(tb)
    && (forall k :: k in tb.fees ==>
          if k == "" then tb.fees[k].owner.Deposit? && tb.fees[k].status.Failed? && tb.fees[k].scheduleId == ""
          else Issued(net, tb.fees[k].owner, k))
    && (forall k :: k in tb.fees && tb.fees[k].owner.Deposit? && k != "" ==>
          || tb.fees[k].status.Submitted?
          || (Resolved(net, k, tb.fees[k].status.Completed?) && Terminal(tb.fees[k].status)))
    && (forall id :: id in tb.burns && tb.burns[id].txId.Some? ==>
          ScheduledFor(cfg, net, Burn(id), Schedule(tb.burns[id].txId.value, tb.burns[id].scheduleId)))
    && (forall k, l :: k in tb.fees && l in tb.fees && tb.fees[k].scheduleId == tb.fees[l].scheduleId ==> k == l)
  }

  predicate NetOk(cfg: Config, net: Network) {
    && (forall key :: key in net.schedules ==>
          key == SubmissionKey(cfg, key.memo) && Issued(net, key.memo, net.schedules[key].txId))
    && "" !in net.issued
  }

  ghost predicate Inv(cfg: Config, s: State) {
    && NetOk(cfg, s.net)
    && (forall v :: 0 <= v < |s.tables| ==> TablesOk(cfg, s.tables[v], s.net))
    && (forall i :: 0 <= i < |s.tasks| ==> TaskOk(cfg, s, s.tasks[i]))
    && (forall i, j :: 0 <= i < j < |s.tasks| && Active(s.tasks[i]) && Active(s.tasks[j]) ==>
          s.tasks[i].v != s.tasks[j].v || s.tasks[i].memo != s.tasks[j].memo)
  }

  // ----- one write keeps the tables in order and touches one owner only -----

  ghost predicate OnlyTouches(tb: Tables, tb': Tables, memo: Memo) {
    && (forall id :: Burn(id) != memo ==>
          (id in tb'.burns <==> id in tb.burns) && (id in tb.burns ==> tb'.burns[id] == tb.burns[id]))
    && (forall m :: m != memo ==> OwnedFees(tb', m) == OwnedFees(tb, m))
  }

  lemma CreateFeeTouches(tb: Tables, txId: TxId, row: FeeRow, ok: bool)
    ensures OnlyTouches(tb, CreateFee(tb, txId, row, ok), row.owner)
  {
    var tb' := CreateFee(tb, txId, row, ok);
    forall m | m != row.owner ensures OwnedFees(tb', m) == OwnedFees(tb, m) {}
  }

  lemma SetFeeStatusTouches(tb: Tables, txId: TxId, status: Status, memo: Memo)
    requires txId in tb.fees ==> tb.fees[txId].owner == memo
    ensures OnlyTouches(tb, SetFeeStatus(tb, txId, status), memo)
  {
    var tb' := SetFeeStatus(tb, txId, status);
    forall m | m != memo ensures OwnedFees(tb', m) == OwnedFees(tb, m) {}
  }

  /** A new fee row is in order if its owner has none yet and its burn row allows it. */
  lemma CreateFeeOk(cfg: Config, tb: Tables, net: Network, txId: TxId, row: FeeRow, ok: bool)
    requires TablesOk(cfg, tb, net)
    requires row.owner.Burn? ==>
               && row.owner.eventId in tb.burns && InLockstep(tb.burns[row.owner.eventId].status, row.status)
               && SameTransaction(tb.burns[row.owner.eventId], txId, row)
    requires if txId == "" then row.owner.Deposit? && row.status.Failed? && row.scheduleId == ""
             else Issued(net, row.owner, txId)
    requires row.owner.Deposit? && txId != "" ==> row.status.Submitted?
    ensures TablesOk(cfg, CreateFee(tb, txId, row, ok), net)
  {
    hide ScheduledFor;
  }

  lemma SetFeeStatusOk(cfg: Config, tb: Tables, net: Network, txId: TxId, success: bool, memo: Memo)
    requires TablesOk(cfg, tb, net) && txId != "" && Issued(net, memo, txId)
    requires memo.Burn? ==> memo.eventId in tb.burns && tb.burns[memo.eventId].status == Outcome(success)
    requires memo.Deposit? ==> Resolved(net, txId, success)
    ensures TablesOk(cfg, SetFeeStatus(tb, txId, Outcome(success)), net)
  {
    hide ScheduledFor;
  }

  lemma CreateBurnOk(cfg: Config, tb: Tables, net: Network, id: EventId, row: BurnRow)
    requires TablesOk(cfg, tb, net) && id !in tb.burns && row.status.Initial? && row.txId.None?
    ensures var tb' := tb.(burns := tb.burns[id := row]);
            TablesOk(cfg, tb', net) && OnlyTouches(tb, tb', Burn(id)) && OwnedFees(tb', Burn(id)) == map[]
  {
    hide ScheduledFor;
    var tb' := tb.(burns := tb.burns[id := row]);
    assert OwnedFees(tb, Burn(id)) == map[];
  }

  /** The pending fee row of a submitted burn, created or not. */
  lemma SubmittedFeeOk(cfg: Config, tb: Tables, net: Network, memo: Memo, schedule: Schedule, amount: string, ok: bool)
    requires memo.Burn? && TablesOk(cfg, tb, net)
    requires BurnIs(tb, memo.eventId, {Submitted}) && OwnedFees(tb, memo) == map[]
    requires Records(tb.burns[memo.eventId], schedule)
    requires Issued(net, memo, schedule.txId) && schedule.txId != ""
    ensures var tb' := CreateFee(tb, schedule.txId, FeeRow(schedule.scheduleId, amount, Submitted, memo), ok);
            && TablesOk(cfg, tb', net) && OnlyTouches(tb, tb', memo) && PendingFee(tb', memo, schedule.txId)
            && tb'.burns == tb.burns
  {
    hide ScheduledFor, TablesOk, OnlyTouches;
    var row := FeeRow(schedule.scheduleId, amount, Submitted, memo);
    CreateFeeOk(cfg, tb, net, schedule.txId, row, ok);
    CreateFeeTouches(tb, schedule.txId, row, ok);
    NoneOwned(tb, memo);
  }

  lemma WriteBurnOk(cfg: Config, tb: Tables, net: Network, memo: Memo, stage: Stage, ok: bool)
    requires memo.Burn? && TablesOk(cfg, tb, net) && NetOk(cfg, net) && BurnTaskOk(cfg, tb, net, memo, stage)
    ensures var w := Write(cfg, tb, memo, stage, ok);
            && TablesOk(cfg, w.tables, net) && BurnTaskOk(cfg, w.tables, net, memo, w.stage)
            && OnlyTouches(tb, w.tables, memo)
  {
    hide ScheduledFor, SubmissionKey, FeeAmount, TablesOk, NetOk, CreateFee, SetFeeStatus, OwnedFees, TxIdTaken;
    var id := memo.eventId;
    match stage
    case Create =>
      var e := cfg.events(id);
      if id !in tb.burns { CreateBurnOk(cfg, tb, net, id, BurnRow(e.amount, e.recipient, Initial, "", None)); }
    case FailBurn(txId) => BurnStatusOk(cfg, tb, net, id, Failed);
    case FailFee(txId) =>
      NetIssued(cfg, net, memo, txId);
      var row := FeeRow("", FeeAmount(cfg, memo), Failed, memo);
      CreateFeeOk(cfg, tb, net, txId, row, ok);
      CreateFeeTouches(tb, txId, row, ok);
    case SubmittedBurn(schedule) =>
      ScheduledIssued(cfg, net, memo, schedule);
      BurnSubmittedOk(cfg, tb, net, id, schedule);
    case SubmittedFee(schedule) =>
      ScheduledIssued(cfg, net, memo, schedule);
      SubmittedFeeOk(cfg, tb, net, memo, schedule, FeeAmount(cfg, memo), ok);
    case MinedBurn(txId, success) => MinedBurnOk(cfg, tb, net, memo, txId, success);
    case MinedFee(txId, success) =>
      NetIssued(cfg, net, memo, txId);
      FeeOwner(cfg, tb, net, memo, txId);
      SetFeeStatusOk(cfg, tb, net, txId, success, memo);
      SetFeeStatusTouches(tb, txId, Outcome(success), memo);
    case _ =>
  }

  lemma NetIssued(cfg: Config, net: Network, memo: Memo, txId: TxId)
    requires NetOk(cfg, net) && Issued(net, memo, txId)
    ensures txId != ""
  {}

  /** A fee row belongs to the memo its transaction id was handed out for. */
  lemma FeeOwner(cfg: Config, tb: Tables, net: Network, memo: Memo, txId: TxId)
    requires TablesOk(cfg, tb, net) && Issued(net, memo, txId) && txId != ""
    ensures txId in tb.fees ==> tb.fees[txId].owner == memo
  {
    hide ScheduledFor, Lockstep;
  }

  lemma ScheduledIssued(cfg: Config, net: Network, memo: Memo, schedule: Schedule)
    requires NetOk(cfg, net) && ScheduledFor(cfg, net, memo, schedule)
    ensures Issued(net, memo, schedule.txId) && schedule.txId != ""
  {
    hide SubmissionKey;
  }

  lemma NoneOwned(tb: Tables, memo: Memo)
    requires OwnedFees(tb, memo) == map[]
    ensures forall k :: k in tb.fees ==> tb.fees[k].owner != memo
  {
    forall k | k in tb.fees ensures tb.fees[k].owner != memo {
      assert k in OwnedFees(tb, memo) <==> tb.fees[k].owner == memo;
    }
  }

  /** Changing the status of a burn without fee rows is always in order. */
  lemma BurnStatusOk(cfg: Config, tb: Tables, net: Network, id: EventId, status: Status)
    requires TablesOk(cfg, tb, net) && id in tb.burns && OwnedFees(tb, Burn(id)) == map[]
    ensures var tb' := SetBurnStatus(tb, id, status);
            TablesOk(cfg, tb', net) && OnlyTouches(tb, tb', Burn(id)) && OwnedFees(tb', Burn(id)) == map[]
  {
    hide ScheduledFor;
    var tb' := SetBurnStatus(tb, id, status);
    assert tb'.fees == tb.fees;
    NoneOwned(tb, Burn(id));
  }

  lemma BurnSubmittedOk(cfg: Config, tb: Tables, net: Network, id: EventId, schedule: Schedule)
    requires TablesOk(cfg, tb, net) && id in tb.burns && OwnedFees(tb, Burn(id)) == map[]
    requires ScheduledFor(cfg, net, Burn(id), schedule)
    ensures var tb' := SetBurnSubmitted(tb, id, schedule);
            TablesOk(cfg, tb', net) && OnlyTouches(tb, tb', Burn(id)) && OwnedFees(tb', Burn(id)) == map[]
  {
    hide ScheduledFor;
    var tb' := SetBurnSubmitted(tb, id, schedule);
    NoneOwned(tb, Burn(id));
  }

  /** The mined callback's first write: the pending fee row is then behind, not ahead. */
  lemma MinedBurnOk(cfg: Config, tb: Tables, net: Network, memo: Memo, txId: TxId, success: bool)
    requires memo.Burn? && TablesOk(cfg, tb, net) && memo.eventId in tb.burns && PendingFee(tb, memo, txId)
    ensures var tb' := SetBurnStatus(tb, memo.eventId, Outcome(success));
            TablesOk(cfg, tb', net) && OnlyTouches(tb, tb', memo) && PendingFee(tb', memo, txId)
  {
    hide ScheduledFor;
    var tb' := SetBurnStatus(tb, memo.eventId, Outcome(success));
    assert OwnedFees(tb', memo) == OwnedFees(tb, memo);
    forall k | k in tb.fees && tb.fees[k].owner == memo ensures tb.fees[k].status.Submitted? {
      assert k in OwnedFees(tb, memo);
    }
  }

  lemma WriteDepositOk(cfg: Config, tb: Tables, net: Network, memo: Memo, stage: Stage, ok: bool)
    requires memo.Deposit? && TablesOk(cfg, tb, net) && NetOk(cfg, net) && DepositTaskOk(cfg, net, memo, stage)
    ensures var w := Write(cfg, tb, memo, stage, ok);
            && TablesOk(cfg, w.tables, net) && DepositTaskOk(cfg, net, memo, w.stage)
            && OnlyTouches(tb, w.tables, memo)
  {
    hide ScheduledFor, SubmissionKey, FeeAmount;
    match stage
    case FailFee(_) =>
      var row := FeeRow("", FeeAmount(cfg, memo), Failed, memo);
      CreateFeeOk(cfg, tb, net, "", row, ok);
      CreateFeeTouches(tb, "", row, ok);
    case SubmittedFee(schedule) =>
      var row := FeeRow(schedule.scheduleId, FeeAmount(cfg, memo), Submitted, memo);
      ScheduledIssued(cfg, net, memo, schedule);
      CreateFeeOk(cfg, tb, net, schedule.txId, row, ok);
      CreateFeeTouches(tb, schedule.txId, row, ok);
    case MinedFee(txId, success) =>
      SetFeeStatusOk(cfg, tb, net, txId, success, memo);
      SetFeeStatusTouches(tb, txId, Outcome(success), memo);
    case _ =>
  }

  // ----- steps of the machine -----

  predicate NetGrows(net: Network, net': Network) {
    && (forall k :: k in net.schedules ==> k in net'.schedules && net'.schedules[k] == net.schedules[k])
    && (forall x :: x in net.results ==> x in net'.results && net'.results[x] == net.results[x])
    && (forall x :: x in net.issued ==> x in net'.issued && net'.issued[x] == net.issued[x])
  }

  lemma TablesGrow(cfg: Config, tb: Tables, net: Network, net': Network)
    requires TablesOk(cfg, tb, net) && NetGrows(net, net')
    ensures TablesOk(cfg, tb, net')
  {
    hide SubmissionKey;
  }

  /** What a burn task relies on: its own rows and the growing network. */
  lemma BurnTaskFrame(cfg: Config, tb: Tables, tb': Tables, net: Network, net': Network, memo: Memo, stage: Stage)
    requires memo.Burn? && BurnTaskOk(cfg, tb, net, memo, stage) && NetGrows(net, net')
    requires memo.eventId in tb.burns ==> memo.eventId in tb'.burns && tb'.burns[memo.eventId] == tb.burns[memo.eventId]
    requires OwnedFees(tb', memo) == OwnedFees(tb, memo)
    ensures BurnTaskOk(cfg, tb', net', memo, stage)
  {
    hide SubmissionKey, OwnedFees;
    assert forall txId :: PendingFee(tb, memo, txId) ==> PendingFee(tb', memo, txId) by {
      forall txId | PendingFee(tb, memo, txId) ensures PendingFee(tb', memo, txId) {
        OwnedRows(tb, memo);
        OwnedRows(tb', memo);
      }
    }
  }

  lemma OwnedRows(tb: Tables, memo: Memo)
    ensures forall k :: k in OwnedFees(tb, memo) ==> k in tb.fees && OwnedFees(tb, memo)[k] == tb.fees[k]
  {}

  /** A task is undisturbed by a larger network and by writes for other memos. */
  lemma TaskFrame(cfg: Config, s: State, t: State, task: Task, memo: Memo)
    requires TaskOk(cfg, s, task) && NetGrows(s.net, t.net) && |t.tables| == |s.tables|
    requires task.memo == memo ==> t.tables[task.v] == s.tables[task.v] || task.memo.Deposit? || !Active(task)
    requires OnlyTouches(s.tables[task.v], t.tables[task.v], memo) || t.tables[task.v] == s.tables[task.v]
    ensures TaskOk(cfg, t, task)
  {
    hide SubmissionKey, OwnedFees, PendingFee;
    if Active(task) {
      BurnTaskFrame(cfg, s.tables[task.v], t.tables[task.v], s.net, t.net, task.memo, task.stage);
    }
  }

  /** Only a first Create adds a burn row, and a task that is not at a write changes nothing. */
  lemma WriteDomain(cfg: Config, tb: Tables, memo: Memo, stage: Stage, ok: bool)
    ensures var w := Write(cfg, tb, memo, stage, ok);
            && (stage.Create? && w.stage.Submit? ==>
                  memo.Burn? && memo.eventId !in tb.burns && w.tables.burns.Keys == tb.burns.Keys + {memo.eventId})
            && (!(stage.Create? && w.stage.Submit?) ==> w.tables.burns.Keys == tb.burns.Keys)
            && (stage.Create? && !w.stage.Submit? ==> w.tables == tb && w.stage.Finished?)
            && (stage.Finished? || stage.Submit? || stage.Waiting? ==> w.tables == tb && w.stage == stage)
            && !w.stage.Create? && (w.stage.Submit? ==> stage.Create? || stage.Submit?)
  {
    hide FeeAmount, FeeConflict, TxIdTaken;
  }

  lemma ActiveHasRow(cfg: Config, s: State, task: Task)
    requires TaskOk(cfg, s, task) && Active(task)
    ensures task.memo.eventId in s.tables[task.v].burns
  {
    hide OwnedFees, ScheduledFor;
  }

  lemma WriteStepTasks(cfg: Config, s: State, i: nat, ok: bool)
    requires Inv(cfg, s) && i < |s.tasks| && s.tasks[i].v < |s.tables|
    ensures var t := WriteStep(cfg, s, i, ok);
            && (forall j :: 0 <= j < |t.tasks| ==> TaskOk(cfg, t, t.tasks[j]))
            && TablesOk(cfg, t.tables[s.tasks[i].v], t.net)
  {
    hide Write, BurnTaskOk, DepositTaskOk, TablesOk, NetOk;
    var task, t := s.tasks[i], WriteStep(cfg, s, i, ok);
    var tb := s.tables[task.v];
    var w := Write(cfg, tb, task.memo, task.stage, ok);
    assert TaskOk(cfg, s, task);
    if task.memo.Burn? { WriteBurnOk(cfg, tb, s.net, task.memo, task.stage, ok); }
    else { WriteDepositOk(cfg, tb, s.net, task.memo, task.stage, ok); }
    WriteDomain(cfg, tb, task.memo, task.stage, ok);
    forall j | 0 <= j < |t.tasks| ensures TaskOk(cfg, t, t.tasks[j]) {
      if j != i {
        assert t.tasks[j] == s.tasks[j];
        if s.tasks[j].v == task.v && s.tasks[j].memo == task.memo && Active(s.tasks[j]) {
          ActiveHasRow(cfg, s, s.tasks[j]);
        }
        TaskFrame(cfg, s, t, s.tasks[j], task.memo);
      }
    }
  }

  lemma WriteStepInv(cfg: Config, s: State, i: nat, ok: bool)
    requires Inv(cfg, s) && i < |s.tasks| && s.tasks[i].v < |s.tables|
    ensures Inv(cfg, WriteStep(cfg, s, i, ok))
  {
    hide Write, BurnTaskOk, DepositTaskOk, TablesOk, NetOk;
    var task, t := s.tasks[i], WriteStep(cfg, s, i, ok);
    WriteDomain(cfg, s.tables[task.v], task.memo, task.stage, ok);
    WriteStepTasks(cfg, s, i, ok);
    forall j, k | 0 <= j < k < |t.tasks| && Active(t.tasks[j]) && Active(t.tasks[k])
      ensures t.tasks[j].v != t.tasks[k].v || t.tasks[j].memo != t.tasks[k].memo
    {
      if task.stage.Create? && (j == i || k == i) {
        var other := if j == i then k else j;
        assert s.tasks[other] == t.tasks[other];
        ActiveHasRow(cfg, s, s.tasks[other]);
      }
    }
    forall v | 0 <= v < |t.tables| ensures TablesOk(cfg, t.tables[v], t.net) {
      assert v != task.v ==> t.tables[v] == s.tables[v];
    }
  }

  lemma GotoInv(cfg: Config, s: State, t: State, i: nat, stage: Stage)
    requires Inv(cfg, s) && i < |s.tasks| && !s.tasks[i].stage.Create?
    requires t == Goto(s.(net := t.net), i, stage) && NetGrows(s.net, t.net) && NetOk(cfg, t.net)
    requires s.tasks[i].stage.Finished? ==> stage.Finished?
    requires TaskOk(cfg, t, Task(s.tasks[i].v, s.tasks[i].memo, stage))
    ensures Inv(cfg, t)
  {
    hide BurnTaskOk, DepositTaskOk, TablesOk, NetOk, OnlyTouches;
    forall j | 0 <= j < |t.tasks| ensures TaskOk(cfg, t, t.tasks[j]) {
      if j != i { TaskFrame(cfg, s, t, s.tasks[j], s.tasks[j].memo); }
    }
    forall v | 0 <= v < |t.tables| ensures TablesOk(cfg, t.tables[v], t.net) {
      TablesGrow(cfg, s.tables[v], s.net, t.net);
    }
  }

  lemma SubmissionGrows(cfg: Config, net: Network, memo: Memo, reply: Reply, ids: Schedule)
    requires NetOk(cfg, net) && ids.txId != "" && ids.txId !in net.issued
    ensures var net' := Submission(net, SubmissionKey(cfg, memo), reply, ids);
            && NetGrows(net, net') && NetOk(cfg, net')
            && (!reply.NoResponse? ==> Issued(net', memo, ids.txId))
            && (reply.Accepted? ==> SubmissionKey(cfg, memo) in net'.schedules)
  {
    hide SubmissionKey;
  }

  lemma SubmitStepInv(cfg: Config, s: State, i: nat, reply: Reply, ids: Schedule)
    requires Inv(cfg, s) && i < |s.tasks| && s.tasks[i].stage.Submit?
    requires ids.txId != "" && ids.txId !in s.net.issued
    ensures Inv(cfg, SubmitStep(cfg, s, i, reply, ids))
  {
    hide SubmissionKey, TablesOk, OwnedFees;
    var task, t := s.tasks[i], SubmitStep(cfg, s, i, reply, ids);
    SubmissionGrows(cfg, s.net, task.memo, reply, ids);
    assert TaskOk(cfg, s, task);
    GotoInv(cfg, s, t, i, t.tasks[i].stage);
  }

  /** A task that starts owns nothing yet. */
  lemma StartTaskInv(cfg: Config, s: State, task: Task, t: State)
    requires Inv(cfg, s) && task.v < |s.tables|
    requires task.stage == if task.memo.Burn? then Create else Submit
    requires t == s.(tasks := s.tasks + [task])
    ensures Inv(cfg, t)
  {
    hide TablesOk, NetOk, OwnedFees, PendingFee, ScheduledFor;
    forall j | 0 <= j < |t.tasks| ensures TaskOk(cfg, t, t.tasks[j]) {
      if j < |s.tasks| { assert TaskOk(cfg, s, s.tasks[j]); }
    }
  }

  lemma ApplyInv(cfg: Config, s: State, a: Action)
    requires Inv(cfg, s)
    ensures Inv(cfg, Apply(cfg, s, a))
  {
    hide Inv, SubmitStep, WriteStep;
    var t := Apply(cfg, s, a);
    match a
    case Deliver(v, id) => if v < |s.tables| { StartTaskInv(cfg, s, Task(v, Burn(id), Create), t); }
    case StartFee(v, id) => if v < |s.tables| { StartTaskInv(cfg, s, Task(v, Deposit(id), Submit), t); }
    case SubmitTx(i, reply, ids) =>
      if i < |s.tasks| && s.tasks[i].stage.Submit? && ids.txId != "" && ids.txId !in s.net.issued {
        SubmitStepInv(cfg, s, i, reply, ids);
      }
    case WriteRow(i, ok) => if i < |s.tasks| && s.tasks[i].v < |s.tables| { WriteStepInv(cfg, s, i, ok); }
    case Mine(txId, success) => MineInv(cfg, s, t);
    case Observe(i) => ObserveInv(cfg, s, i);
    case Abandon(i) => if i < |s.tasks| { AbandonInv(cfg, s, i); }
  }

  lemma MineInv(cfg: Config, s: State, t: State)
    requires Inv(cfg, s) && NetGrows(s.net, t.net) && t == s.(net := t.net)
    requires t.net.schedules == s.net.schedules && t.net.issued == s.net.issued
    ensures Inv(cfg, t)
  {
    hide TablesOk, SubmissionKey, BurnTaskOk, DepositTaskOk, OnlyTouches;
    forall j | 0 <= j < |t.tasks| ensures TaskOk(cfg, t, t.tasks[j]) {
      TaskFrame(cfg, s, t, s.tasks[j], s.tasks[j].memo);
    }
    forall v | 0 <= v < |t.tables| ensures TablesOk(cfg, t.tables[v], t.net) {
      TablesGrow(cfg, s.tables[v], s.net, t.net);
    }
  }

  lemma ObserveInv(cfg: Config, s: State, i: nat)
    requires Inv(cfg, s)
    ensures Inv(cfg, Apply(cfg, s, Observe(i)))
  {
    hide TablesOk, SubmissionKey, OwnedFees;
    if i < |s.tasks| && s.tasks[i].stage.Waiting? && s.tasks[i].stage.txId in s.net.results {
      assert TaskOk(cfg, s, s.tasks[i]);
      var t := Apply(cfg, s, Observe(i));
      GotoInv(cfg, s, t, i, t.tasks[i].stage);
    }
  }

  lemma AbandonInv(cfg: Config, s: State, i: nat)
    requires Inv(cfg, s) && i < |s.tasks|
    ensures Inv(cfg, Goto(s, i, Finished))
  {
    hide TablesOk, NetOk, OwnedFees, PendingFee, ScheduledFor;
    var t := Goto(s, i, Finished);
    forall j | 0 <= j < |t.tasks| ensures TaskOk(cfg, t, t.tasks[j]) {
      assert TaskOk(cfg, s, s.tasks[j]);
    }
  }

  lemma {:induction false} RunInv(cfg: Config, n: nat, actions: seq<Action>)
    ensures Inv(cfg, Run(cfg, n, actions))
    decreases |actions|
  {
    if actions != [] {
      hide Inv, SubmitStep;
      var before := actions[..|actions| - 1];
      RunInv(cfg, n, before);
      ApplyInv(cfg, Run(cfg, n, before), actions[|actions| - 1]);
    }
  }

  // ----- what holds over whole runs -----

  /** At every validator, in every reachable state, for every pattern of failed writes, lost
      receipts and stopped tasks, the Fee row is in lockstep with its BurnEvent row and about
      the same scheduled transaction. */
  lemma AlwaysInLockstep(cfg: Config, n: nat, actions: seq<Action>, v: nat, k: TxId)
    requires v < n && k in Run(cfg, n, actions).tables[v].fees && Run(cfg, n, actions).tables[v].fees[k].owner.Burn?
    ensures var tb := Run(cfg, n, actions).tables[v];
            var id := tb.fees[k].owner.eventId;
            && id in tb.burns
            && InLockstep(tb.burns[id].status, tb.fees[k].status)
            && SameTransaction(tb.burns[id], k, tb.fees[k])
  {
    hide Run;
    RunInv(cfg, n, actions);
  }

  /** Terminal statuses of `tb` are found again in `tb'`. */
  predicate TerminalKept(tb: Tables, tb': Tables) {
    && (forall id :: id in tb.burns && Terminal(tb.burns[id].status) ==>
          id in tb'.burns && tb'.burns[id].status == tb.burns[id].status)
    && (forall k :: k in tb.fees && Terminal(tb.fees[k].status) ==>
          k in tb'.fees && tb'.fees[k].status == tb.fees[k].status)
  }

  /** A burn task writes only rows that are not terminal, or their own status again. */
  lemma BurnWriteTerminalKept(cfg: Config, tb: Tables, net: Network, memo: Memo, stage: Stage, ok: bool)
    requires memo.Burn? && TablesOk(cfg, tb, net) && NetOk(cfg, net) && BurnTaskOk(cfg, tb, net, memo, stage)
    ensures TerminalKept(tb, Write(cfg, tb, memo, stage, ok).tables)
  {
    hide SubmissionKey, FeeAmount, TablesOk, NetOk, TxIdTaken;
    if stage.MinedFee? && stage.txId in tb.fees {
      NetIssued(cfg, net, memo, stage.txId);
      FeeOwner(cfg, tb, net, memo, stage.txId);
      assert stage.txId in OwnedFees(tb, memo);
    }
  }

  /** A deposit's terminal fee row has the outcome the network recorded once. */
  lemma DepositWriteTerminalKept(cfg: Config, tb: Tables, net: Network, memo: Memo, stage: Stage, ok: bool)
    requires memo.Deposit? && TablesOk(cfg, tb, net) && NetOk(cfg, net) && DepositTaskOk(cfg, net, memo, stage)
    ensures TerminalKept(tb, Write(cfg, tb, memo, stage, ok).tables)
  {
    hide SubmissionKey, FeeAmount, Lockstep, NetOk, TxIdTaken;
    if stage.MinedFee? && stage.txId in tb.fees {
      NetIssued(cfg, net, memo, stage.txId);
      FeeOwner(cfg, tb, net, memo, stage.txId);
    }
  }

  lemma WriteTerminalKept(cfg: Config, s: State, i: nat, ok: bool)
    requires Inv(cfg, s) && i < |s.tasks|
    ensures var task := s.tasks[i];
            TerminalKept(s.tables[task.v], Write(cfg, s.tables[task.v], task.memo, task.stage, ok).tables)
  {
    hide Write, TerminalKept, TablesOk, NetOk, BurnTaskOk, DepositTaskOk;
    var task := s.tasks[i];
    assert TaskOk(cfg, s, task) && TablesOk(cfg, s.tables[task.v], s.net);
    if task.memo.Burn? { BurnWriteTerminalKept(cfg, s.tables[task.v], s.net, task.memo, task.stage, ok); }
    else { DepositWriteTerminalKept(cfg, s.tables[task.v], s.net, task.memo, task.stage, ok); }
  }

  lemma ApplyTerminalKept(cfg: Config, s: State, a: Action, v: nat)
    requires Inv(cfg, s) && v < |s.tables|
    ensures TerminalKept(s.tables[v], Apply(cfg, s, a).tables[v])
  {
    hide Inv, Write, SubmitStep, TerminalKept;
    SameTerminal(s.tables[v]);
    if a.SubmitTx? {
      SubmitKeepsTables(cfg, s, a);
    }
    if a.WriteRow? && a.i < |s.tasks| && s.tasks[a.i].v < |s.tables| {
      WriteTerminalKept(cfg, s, a.i, a.ok);
    }
  }

  lemma SameTerminal(tb: Tables)
    ensures TerminalKept(tb, tb)
  {}

  lemma SubmitKeepsTables(cfg: Config, s: State, a: Action)
    requires a.SubmitTx?
    ensures Apply(cfg, s, a).tables == s.tables
  {
    hide SubmissionKey, Submission;
  }

  lemma NextTerminalKept(cfg: Config, n: nat, before: seq<Action>, a: Action, v: nat)
    requires v < n
    ensures TerminalKept(Run(cfg, n, before).tables[v], Run(cfg, n, before + [a]).tables[v])
  {
    hide Inv, Run, Apply, TerminalKept;
    RunInv(cfg, n, before);
    RunExtend(cfg, n, before, a);
    ApplyTerminalKept(cfg, Run(cfg, n, before), a, v);
  }

  /** Terminal BurnEvent and Fee statuses never change again, however the run goes on. */
  lemma {:induction false} TerminalStatusesAreFinal(cfg: Config, n: nat,
                                                     actions: seq<Action>, later: seq<Action>, v: nat)
    requires v < n
    ensures TerminalKept(Run(cfg, n, actions).tables[v], Run(cfg, n, actions + later).tables[v])
    decreases |later|
  {
    hide Run, Apply, TerminalKept;
    if later == [] {
      SameTerminal(Run(cfg, n, actions).tables[v]);
      assert actions + later == actions;
    } else {
      var before, last := later[..|later| - 1], later[|later| - 1];
      TerminalStatusesAreFinal(cfg, n, actions, before, v);
      NextTerminalKept(cfg, n, actions + before, last, v);
      assert actions + later == actions + before + [last];
      TerminalTransitive(Run(cfg, n, actions).tables[v], Run(cfg, n, actions + before).tables[v],
                         Run(cfg, n, actions + later).tables[v]);
    }
  }

  lemma TerminalTransitive(a: Tables, b: Tables, c: Tables)
    requires TerminalKept(a, b) && TerminalKept(b, c)
    ensures TerminalKept(a, c)
  {}

  // ----- how often Execute is called -----

  /** The action submits the scheduled transaction of a memo at one validator. */
  predicate Submits(s: State, a: Action, v: nat, memo: Memo) {
    && a.SubmitTx? && a.i < |s.tasks| && s.tasks[a.i] == Task(v, memo, Submit)
    && a.ids.txId != "" && a.ids.txId !in s.net.issued
  }

  /** How many of the actions submit it, whatever the reply. */
  function Submissions(cfg: Config, n: nat, actions: seq<Action>, v: nat, memo: Memo): nat
    decreases |actions|
  {
    if actions == [] then 0
    else
      var before, last := actions[..|actions| - 1], actions[|actions| - 1];
      Submissions(cfg, n, before, v, memo) + if Submits(Run(cfg, n, before), last, v, memo) then 1 else 0
  }

  /** One while a task of the event is about to submit. */
  function Submitting(s: State, v: nat, id: EventId): nat {
    if exists i :: 0 <= i < |s.tasks| && s.tasks[i] == Task(v, Burn(id), Submit) then 1 else 0
  }

  function RowsFor(s: State, v: nat, id: EventId): nat {
    if v < |s.tables| && id in s.tables[v].burns then 1 else 0
  }

  /** Events that have a row, but were neither submitted nor are about to be. */
  function Dropped(s: State, submissions: nat, v: nat, id: EventId): int {
    RowsFor(s, v, id) - submissions - Submitting(s, v, id)
  }

  /** Two tasks of one event are never both about to submit. */
  lemma OneSubmitting(cfg: Config, s: State, i: nat, j: nat, v: nat, id: EventId)
    requires Inv(cfg, s) && i < |s.tasks| && j < |s.tasks|
    requires s.tasks[i] == s.tasks[j] == Task(v, Burn(id), Submit)
    ensures i == j
  {
    hide TaskOk, TablesOk, NetOk;
  }

  /** A submission uses up the one task that is about to submit. */
  lemma SubmitDropped(cfg: Config, s: State, a: Action, v: nat, id: EventId)
    requires Inv(cfg, s) && a.SubmitTx?
    ensures var t := Apply(cfg, s, a);
            Dropped(t, if Submits(s, a, v, Burn(id)) then 1 else 0, v, id) == Dropped(s, 0, v, id)
  {
    hide Inv, SubmissionKey, Submission;
    var t := Apply(cfg, s, a);
    assert t.tables == s.tables;
    if t != s {
      forall j | 0 <= j < |t.tasks| ensures j != a.i ==> t.tasks[j] == s.tasks[j] {}
      assert !t.tasks[a.i].stage.Submit?;
      forall j | 0 <= j < |s.tasks| && s.tasks[j] == s.tasks[a.i] == Task(v, Burn(id), Submit) ensures j == a.i {
        OneSubmitting(cfg, s, j, a.i, v, id);
      }
      if s.tasks[a.i] != Task(v, Burn(id), Submit) { SubmittingKept(s, t, a.i, v, id); }
    }
  }

  /** Moving a task that is not about to submit this event, nor will be, changes nothing. */
  lemma SubmittingKept(s: State, t: State, i: nat, v: nat, id: EventId)
    requires |t.tasks| == |s.tasks| && i < |s.tasks|
    requires forall j :: 0 <= j < |s.tasks| && j != i ==> t.tasks[j] == s.tasks[j]
    requires s.tasks[i] == Task(v, Burn(id), Submit) <==> t.tasks[i] == Task(v, Burn(id), Submit)
    ensures Submitting(t, v, id) == Submitting(s, v, id)
  {
    if j :| 0 <= j < |s.tasks| && s.tasks[j] == Task(v, Burn(id), Submit) {
      assert t.tasks[j] == Task(v, Burn(id), Submit);
    }
  }

  /** Creating the row of an event puts the one task of it at its submission. */
  lemma WriteDropped(cfg: Config, s: State, i: nat, ok: bool, v: nat, id: EventId)
    requires Inv(cfg, s) && i < |s.tasks| && s.tasks[i].v < |s.tables|
    ensures Dropped(WriteStep(cfg, s, i, ok), 0, v, id) == Dropped(s, 0, v, id)
  {
    hide Write, TaskOk, TablesOk, NetOk;
    var task, t := s.tasks[i], WriteStep(cfg, s, i, ok);
    WriteDomain(cfg, s.tables[task.v], task.memo, task.stage, ok);
    if task.v == v && task.memo == Burn(id) && task.stage.Create? && t.tasks[i].stage.Submit? {
      assert t.tasks[i] == Task(v, Burn(id), Submit);
      forall j | 0 <= j < |s.tasks| ensures s.tasks[j] != Task(v, Burn(id), Submit) {
        assert TaskOk(cfg, s, s.tasks[j]);
        if s.tasks[j] == Task(v, Burn(id), Submit) { ActiveHasRow(cfg, s, s.tasks[j]); }
      }
    } else {
      SubmittingKept(s, t, i, v, id);
    }
  }

  predicate NoneAbandoned(actions: seq<Action>) {
    forall i :: 0 <= i < |actions| ==> !actions[i].Abandon?
  }

  lemma ApplyDropped(cfg: Config, s: State, a: Action, v: nat, id: EventId)
    requires Inv(cfg, s)
    ensures var dropped := Dropped(Apply(cfg, s, a), if Submits(s, a, v, Burn(id)) then 1 else 0, v, id);
            dropped >= Dropped(s, 0, v, id) && (!a.Abandon? ==> dropped == Dropped(s, 0, v, id))
  {
    hide Inv, SubmitStep, WriteStep;
    var t := Apply(cfg, s, a);
    match a
    case SubmitTx(_, _, _) => SubmitDropped(cfg, s, a, v, id);
    case WriteRow(i, ok) => if i < |s.tasks| && s.tasks[i].v < |s.tables| { WriteDropped(cfg, s, i, ok, v, id); }
    case Deliver(_, _) => Appended(s, t, v, id);
    case StartFee(_, _) => Appended(s, t, v, id);
    case Observe(i) => if t != s { SubmittingKept(s, t, i, v, id); }
    case _ =>
  }

  lemma Appended(s: State, t: State, v: nat, id: EventId)
    requires s.tasks <= t.tasks && forall j :: |s.tasks| <= j < |t.tasks| ==> t.tasks[j] != Task(v, Burn(id), Submit)
    ensures Submitting(t, v, id) == Submitting(s, v, id)
  {
    if j :| 0 <= j < |s.tasks| && s.tasks[j] == Task(v, Burn(id), Submit) { assert t.tasks[j] == s.tasks[j]; }
  }

  /** Over any interleaving of duplicate deliveries, a validator submits the payout of a burn
      event at most once, and only with a row of the event: submissions, and the task that is
      about to submit, are at most the rows. Unless a task is abandoned they are exactly the
      rows. */
  lemma {:induction false} ExecuteAtMostOnce(cfg: Config, n: nat, actions: seq<Action>, v: nat, id: EventId)
    ensures var s, submissions := Run(cfg, n, actions), Submissions(cfg, n, actions, v, Burn(id));
            && submissions + Submitting(s, v, id) <= RowsFor(s, v, id) <= 1
            && (NoneAbandoned(actions) ==> submissions + Submitting(s, v, id) == RowsFor(s, v, id))
    decreases |actions|
  {
    if actions != [] {
      hide Inv, Apply, Submits, RowsFor, Submitting;
      var before, last := actions[..|actions| - 1], actions[|actions| - 1];
      ExecuteAtMostOnce(cfg, n, before, v, id);
      RunInv(cfg, n, before);
      ApplyDropped(cfg, Run(cfg, n, before), last, v, id);
      RowsAtMostOne(Run(cfg, n, actions), v, id);
    }
  }

  lemma RowsAtMostOne(s: State, v: nat, id: EventId)
    ensures RowsFor(s, v, id) <= 1
  {}

  /** A process that stops between creating the row and calling Execute leaves a row that is
      never submitted: later deliveries of the event find the row and do nothing. */
  lemma RowWithoutSubmission(cfg: Config, id: EventId)
    ensures var actions := [Deliver(0, id), WriteRow(0, true), Abandon(0), Deliver(0, id), WriteRow(1, true)];
            var s := Run(cfg, 1, actions);
            && id in s.tables[0].burns && s.tables[0].burns[id].status.Initial?
            && Submissions(cfg, 1, actions, 0, Burn(id)) == 0
            && forall i :: 0 <= i < |s.tasks| ==> s.tasks[i].stage.Finished?
  {
    hide Run, FeeAmount;
    var actions := [Deliver(0, id), WriteRow(0, true), Abandon(0), Deliver(0, id), WriteRow(1, true)];
    RunFive(cfg, [], actions);
    assert [] + actions == actions && Run(cfg, 1, []) == Start(1) by { StartRun(cfg); }
    BurnCreated(cfg, Start(1), id);
    NoSubmissions(cfg, actions, 0, Burn(id));
  }

  lemma StartRun(cfg: Config)
    ensures Run(cfg, 1, []) == Start(1)
  {}

  lemma {:induction false} NoSubmissions(cfg: Config, actions: seq<Action>, v: nat, memo: Memo)
    requires forall i :: 0 <= i < |actions| ==> !actions[i].SubmitTx?
    ensures Submissions(cfg, 1, actions, v, memo) == 0
    decreases |actions|
  {
    hide Run;
    if actions != [] { NoSubmissions(cfg, actions[..|actions| - 1], v, memo); }
  }

  /** All validators whose submission succeeded record the same schedule and transaction. */
  lemma SameSchedule(cfg: Config, n: nat, actions: seq<Action>, v: nat, w: nat, id: EventId)
    requires v < n && w < n
    ensures var a, b := Run(cfg, n, actions).tables[v], Run(cfg, n, actions).tables[w];
            id in a.burns && id in b.burns && a.burns[id].txId.Some? && b.burns[id].txId.Some? ==>
              a.burns[id].txId == b.burns[id].txId && a.burns[id].scheduleId == b.burns[id].scheduleId
  {
    hide Run, SubmissionKey, Lockstep;
    RunInv(cfg, n, actions);
    var s := Run(cfg, n, actions);
    assert TablesOk(cfg, s.tables[v], s.net) && TablesOk(cfg, s.tables[w], s.net);
  }

  /** The executed scheduled transactions for a memo. */
  function ExecutedFor(net: Network, memo: Memo): set<Key> {
    set key | key in net.schedules && key.memo == memo && Resolved(net, net.schedules[key].txId, true)
  }

  /** However many validators submit however often, at most one scheduled transaction is
      executed for a burn, and it is the payout of that event: the bridge account is debited
      the burned amount at most once. */
  lemma PaidAtMostOnce(cfg: Config, n: nat, actions: seq<Action>, memo: Memo)
    ensures ExecutedFor(Run(cfg, n, actions).net, memo) <= {SubmissionKey(cfg, memo)}
    ensures |ExecutedFor(Run(cfg, n, actions).net, memo)| <= 1
  {
    hide Run, SubmissionKey;
    RunInv(cfg, n, actions);
    var executed := ExecutedFor(Run(cfg, n, actions).net, memo);
    if executed != {} {
      assert executed == {SubmissionKey(cfg, memo)};
    }
  }

  // ----- the rows tell what the network did -----

  /** The transaction is the one the network scheduled for the memo's own list. */
  predicate OnSchedule(cfg: Config, net: Network, memo: Memo, txId: TxId) {
    var key := SubmissionKey(cfg, memo);
    key in net.schedules && net.schedules[key].txId == txId
  }

  /** The network executed it. */
  predicate PaidOut(cfg: Config, net: Network, memo: Memo) {
    var key := SubmissionKey(cfg, memo);
    key in net.schedules && Resolved(net, net.schedules[key].txId, true)
  }

  predicate BurnTold(cfg: Config, net: Network, id: EventId, row: BurnRow) {
    && row.amount == cfg.events(id).amount && row.recipient == cfg.events(id).recipient
    && (row.status.Completed? ==> PaidOut(cfg, net, Burn(id)))
    && (row.status.Failed? && row.txId.Some? ==> Resolved(net, row.txId.value, false))
  }

  predicate FeeTold(cfg: Config, net: Network, txId: TxId, row: FeeRow) {
    && row.amount == FeeAmount(cfg, row.owner)
    && (row.status.Completed? ==> OnSchedule(cfg, net, row.owner, txId) && Resolved(net, txId, true))
    && (row.status.Submitted? ==> OnSchedule(cfg, net, row.owner, txId))
    && (row.status.Failed? && row.scheduleId != "" ==>
          OnSchedule(cfg, net, row.owner, txId) && Resolved(net, txId, false))
  }

  predicate TablesTold(cfg: Config, tb: Tables, net: Network) {
    && (forall id :: id in tb.burns ==> BurnTold(cfg, net, id, tb.burns[id]))
    && (forall k :: k in tb.fees ==> FeeTold(cfg, net, k, tb.fees[k]))
  }

  /** The transaction id recorded for the event of a task, if there is one, is the given one. */
  predicate Recorded(tb: Tables, memo: Memo, txId: TxId) {
    memo.Burn? && memo.eventId in tb.burns && tb.burns[memo.eventId].txId.Some? ==>
      tb.burns[memo.eventId].txId.value == txId
  }

  predicate TaskTold(cfg: Config, tb: Tables, net: Network, memo: Memo, stage: Stage) {
    match stage
    case SubmittedBurn(schedule) =>
      ScheduledFor(cfg, net, memo, schedule) && Recorded(tb, memo, schedule.txId)
    case SubmittedFee(schedule) => ScheduledFor(cfg, net, memo, schedule) && Recorded(tb, memo, schedule.txId)
    case Waiting(txId) => OnSchedule(cfg, net, memo, txId) && Recorded(tb, memo, txId)
    case MinedBurn(txId, success) =>
      OnSchedule(cfg, net, memo, txId) && Recorded(tb, memo, txId) && Resolved(net, txId, success)
    case MinedFee(txId, success) =>
      OnSchedule(cfg, net, memo, txId) && Recorded(tb, memo, txId) && Resolved(net, txId, success)
    case Submit => memo.Burn? && memo.eventId in tb.burns ==> tb.burns[memo.eventId].txId.None?
    case FailBurn(_) => memo.Burn? && memo.eventId in tb.burns ==> tb.burns[memo.eventId].txId.None?
    case FailFee(_) => memo.Burn? && memo.eventId in tb.burns ==> tb.burns[memo.eventId].txId.None?
    case _ => true
  }

  ghost predicate Told(cfg: Config, s: State) {
    && (forall v :: 0 <= v < |s.tables| ==> TablesTold(cfg, s.tables[v], s.net))
    && (forall i :: 0 <= i < |s.tasks| && s.tasks[i].v < |s.tables| ==>
          TaskTold(cfg, s.tables[s.tasks[i].v], s.net, s.tasks[i].memo, s.tasks[i].stage))
  }

  /** A write of a task says what the network did. */
  lemma WriteTold(cfg: Config, tb: Tables, net: Network, memo: Memo, stage: Stage, ok: bool)
    requires TablesOk(cfg, tb, net) && NetOk(cfg, net)
    requires TablesTold(cfg, tb, net) && TaskTold(cfg, tb, net, memo, stage)
    requires stage.MinedFee? ==> Issued(net, memo, stage.txId)
    ensures var w := Write(cfg, tb, memo, stage, ok);
            TablesTold(cfg, w.tables, net) && TaskTold(cfg, w.tables, net, memo, w.stage)
  {
    hide SubmissionKey, FeeAmount, TablesOk, NetOk, TxIdTaken, FeeConflict;
    if stage.MinedFee? {
      NetIssued(cfg, net, memo, stage.txId);
      FeeOwner(cfg, tb, net, memo, stage.txId);
    }
  }

  lemma TablesToldGrow(cfg: Config, tb: Tables, net: Network, net': Network)
    requires TablesTold(cfg, tb, net) && NetGrows(net, net')
    ensures TablesTold(cfg, tb, net')
  {
    hide SubmissionKey, FeeAmount;
  }

  /** A task is undisturbed by a larger network and by writes that leave its event's row. */
  lemma TaskToldFrame(cfg: Config, tb: Tables, tb': Tables, net: Network, net': Network, memo: Memo, stage: Stage)
    requires TaskTold(cfg, tb, net, memo, stage) && NetGrows(net, net')
    requires memo.Burn? && memo.eventId in tb'.burns ==>
               memo.eventId in tb.burns && tb'.burns[memo.eventId] == tb.burns[memo.eventId]
    ensures TaskTold(cfg, tb', net', memo, stage)
  {
    hide SubmissionKey;
  }

  lemma WriteStepTold(cfg: Config, s: State, i: nat, ok: bool)
    requires Inv(cfg, s) && Told(cfg, s) && i < |s.tasks| && s.tasks[i].v < |s.tables|
    ensures Told(cfg, WriteStep(cfg, s, i, ok))
  {
    hide Write, TablesOk, NetOk, BurnTaskOk, DepositTaskOk, TablesTold, TaskTold;
    var task, t := s.tasks[i], WriteStep(cfg, s, i, ok);
    var tb := s.tables[task.v];
    var w := Write(cfg, tb, task.memo, task.stage, ok);
    assert TaskOk(cfg, s, task);
    MinedIssued(cfg, s, task);
    WriteTold(cfg, tb, s.net, task.memo, task.stage, ok);
    forall v | 0 <= v < |t.tables| ensures TablesTold(cfg, t.tables[v], t.net) {
      assert v != task.v ==> t.tables[v] == s.tables[v];
    }
    forall j | 0 <= j < |t.tasks| && t.tasks[j].v < |t.tables|
      ensures TaskTold(cfg, t.tables[t.tasks[j].v], t.net, t.tasks[j].memo, t.tasks[j].stage)
    {
      if j != i {
        assert t.tasks[j] == s.tasks[j];
        OtherTaskTold(cfg, s, i, ok, j);
      }
    }
  }

  lemma MinedIssued(cfg: Config, s: State, task: Task)
    requires TaskOk(cfg, s, task)
    ensures task.stage.MinedFee? ==> Issued(s.net, task.memo, task.stage.txId)
  {
    hide OwnedFees, ScheduledFor;
  }

  lemma OtherTaskTold(cfg: Config, s: State, i: nat, ok: bool, j: nat)
    requires Inv(cfg, s) && Told(cfg, s) && i < |s.tasks| && s.tasks[i].v < |s.tables|
    requires j < |s.tasks| && j != i && s.tasks[j].v < |s.tables|
    ensures TaskTold(cfg, WriteStep(cfg, s, i, ok).tables[s.tasks[j].v], s.net, s.tasks[j].memo, s.tasks[j].stage)
  {
    hide Write, TablesOk, NetOk, BurnTaskOk, DepositTaskOk, TablesTold, OwnedFees;
    var task, other, t := s.tasks[i], s.tasks[j], WriteStep(cfg, s, i, ok);
    var tb := s.tables[task.v];
    assert TaskOk(cfg, s, task) && TaskOk(cfg, s, other);
    if task.memo.Burn? { WriteBurnOk(cfg, tb, s.net, task.memo, task.stage, ok); }
    else { WriteDepositOk(cfg, tb, s.net, task.memo, task.stage, ok); }
    if other.v == task.v && other.memo == task.memo && Active(other) {
      ActiveHasRow(cfg, s, other);
      WriteDomain(cfg, tb, task.memo, task.stage, ok);
    }
    if other.memo.Deposit? || Active(other) {
      TaskToldFrame(cfg, s.tables[other.v], t.tables[other.v], s.net, s.net, other.memo, other.stage);
    }
  }

  lemma GotoTold(cfg: Config, s: State, t: State, i: nat, stage: Stage)
    requires Told(cfg, s) && i < |s.tasks| && t == Goto(s.(net := t.net), i, stage) && NetGrows(s.net, t.net)
    requires s.tasks[i].v < |s.tables| ==> TaskTold(cfg, s.tables[s.tasks[i].v], t.net, s.tasks[i].memo, stage)
    ensures Told(cfg, t)
  {
    hide TablesTold, TaskTold;
    GrownTold(cfg, s, s.(net := t.net));
  }

  lemma GrownTold(cfg: Config, s: State, t: State)
    requires Told(cfg, s) && t == s.(net := t.net) && NetGrows(s.net, t.net)
    ensures Told(cfg, t)
  {
    hide TablesTold, TaskTold, NetGrows;
    forall v | 0 <= v < |t.tables| ensures TablesTold(cfg, t.tables[v], t.net) {
      TablesToldGrow(cfg, s.tables[v], s.net, t.net);
    }
    forall j | 0 <= j < |t.tasks| && t.tasks[j].v < |t.tables|
      ensures TaskTold(cfg, t.tables[t.tasks[j].v], t.net, t.tasks[j].memo, t.tasks[j].stage)
    {
      var tb, task := s.tables[s.tasks[j].v], s.tasks[j];
      TaskToldFrame(cfg, tb, tb, s.net, t.net, task.memo, task.stage);
    }
  }

  lemma SubmitTold(cfg: Config, s: State, i: nat, reply: Reply, ids: Schedule)
    requires Inv(cfg, s) && Told(cfg, s) && i < |s.tasks| && s.tasks[i].stage.Submit?
    requires ids.txId != "" && ids.txId !in s.net.issued
    ensures Told(cfg, SubmitStep(cfg, s, i, reply, ids))
  {
    hide SubmissionKey, TablesOk, OwnedFees, TablesTold, NetOk;
    var task, t := s.tasks[i], SubmitStep(cfg, s, i, reply, ids);
    SubmissionGrows(cfg, s.net, task.memo, reply, ids);
    assert TaskOk(cfg, s, task);
    GotoTold(cfg, s, t, i, t.tasks[i].stage);
  }

  lemma ApplyTold(cfg: Config, s: State, a: Action)
    requires Inv(cfg, s) && Told(cfg, s)
    ensures Told(cfg, Apply(cfg, s, a))
  {
    hide Inv, SubmitStep, WriteStep, TablesTold, SubmissionKey;
    var t := Apply(cfg, s, a);
    match a
    case Deliver(v, id) =>
    case StartFee(v, id) =>
    case SubmitTx(i, reply, ids) =>
      if i < |s.tasks| && s.tasks[i].stage.Submit? && ids.txId != "" && ids.txId !in s.net.issued {
        SubmitTold(cfg, s, i, reply, ids);
      }
    case WriteRow(i, ok) => if i < |s.tasks| && s.tasks[i].v < |s.tables| { WriteStepTold(cfg, s, i, ok); }
    case Mine(txId, success) => GrownTold(cfg, s, t);
    case Observe(i) => if t != s { GotoTold(cfg, s, t, i, t.tasks[i].stage); }
    case Abandon(i) => if i < |s.tasks| { GotoTold(cfg, s, t, i, Finished); }
  }

  lemma {:induction false} RunTold(cfg: Config, n: nat, actions: seq<Action>)
    ensures Told(cfg, Run(cfg, n, actions))
    decreases |actions|
  {
    if actions != [] {
      hide Inv, Apply, Told;
      var before := actions[..|actions| - 1];
      RunTold(cfg, n, before);
      RunInv(cfg, n, before);
      ApplyTold(cfg, Run(cfg, n, before), actions[|actions| - 1]);
    }
  }

  /** What a BurnEvent row says is so, at every validator and in every reachable state: it has
      the event's amount and recipient; if it is COMPLETED, the network has executed the payout
      of that event, under an id issued for it; and if it is FAILED with a recorded
      transaction, the network has resolved that transaction without success and has executed
      no payout of the event. */
  lemma BurnRowsAreTrue(cfg: Config, n: nat, actions: seq<Action>, v: nat, id: EventId)
    requires v < n && id in Run(cfg, n, actions).tables[v].burns
    ensures var s := Run(cfg, n, actions);
            var row, executed := s.tables[v].burns[id], ExecutedFor(s.net, Burn(id));
            && row.amount == cfg.events(id).amount && row.recipient == cfg.events(id).recipient
            && (row.status == Completed ==>
                  && executed == {SubmissionKey(cfg, Burn(id))}
                  && exists txId :: txId in s.net.issued && s.net.issued[txId] == Burn(id)
                                    && txId in s.net.results && s.net.results[txId]
                                    && (row.txId.Some? ==> row.txId.value == txId))
            && (row.status == Failed && row.txId.Some? ==>
                  && executed == {}
                  && row.txId.value in s.net.results && !s.net.results[row.txId.value])
  {
    hide Run, SubmissionKey, Lockstep;
    RunInv(cfg, n, actions);
    RunTold(cfg, n, actions);
    PaidAtMostOnce(cfg, n, actions, Burn(id));
    var s := Run(cfg, n, actions);
    var key := SubmissionKey(cfg, Burn(id));
    assert TablesOk(cfg, s.tables[v], s.net) && TablesTold(cfg, s.tables[v], s.net);
    var row := s.tables[v].burns[id];
    assert BurnTold(cfg, s.net, id, row);
    if row.status == Completed {
      assert key in ExecutedFor(s.net, Burn(id));
      assert Issued(s.net, Burn(id), s.net.schedules[key].txId);
    }
  }

  /** What a Fee row says is so: it has the fee of its owner; if it is COMPLETED, the network
      has executed the list of its owner, under the row's transaction id; and if it is FAILED
      with a schedule id, the network has resolved that transaction without success. */
  lemma FeeRowsAreTrue(cfg: Config, n: nat, actions: seq<Action>, v: nat, txId: TxId)
    requires v < n && txId in Run(cfg, n, actions).tables[v].fees
    ensures var s := Run(cfg, n, actions);
            var row := s.tables[v].fees[txId];
            && row.amount == FeeAmount(cfg, row.owner)
            && (row.status == Completed ==>
                  && ExecutedFor(s.net, row.owner) == {SubmissionKey(cfg, row.owner)}
                  && txId in s.net.results && s.net.results[txId])
            && (row.status == Failed && row.scheduleId != "" ==>
                  && ExecutedFor(s.net, row.owner) == {}
                  && txId in s.net.results && !s.net.results[txId])
  {
    hide Run, SubmissionKey, Lockstep, FeeAmount;
    RunInv(cfg, n, actions);
    RunTold(cfg, n, actions);
    var s := Run(cfg, n, actions);
    var row := s.tables[v].fees[txId];
    PaidAtMostOnce(cfg, n, actions, row.owner);
    var key := SubmissionKey(cfg, row.owner);
    assert TablesTold(cfg, s.tables[v], s.net);
    assert FeeTold(cfg, s.net, txId, row);
    if row.status == Completed { assert key in ExecutedFor(s.net, row.owner); }
  }

  /** The amount in a fee row is what the members get from the submitted list together: its
      first entries, one for each member. */
  lemma FeeRowIsPaid(cfg: Config, memo: Memo)
    ensures var n, list := |cfg.members|, SubmissionKey(cfg, memo).transfers;
            && |list| >= n && (forall i :: 0 <= i < n ==> list[i].account == cfg.members[i])
            && Text.ParseInt(FeeAmount(cfg, memo)).Some?
            && Text.ParseInt(FeeAmount(cfg, memo)).value == Fees.Total(list[..n])
  {
    hide Fees.ValidAmount, Fees.CalculateFee, Quo;
    var n, amount := |cfg.members|, MemoAmount(cfg, memo);
    var fee := Fees.ChargedFee(amount, cfg.percentage, n);
    Text.ParseFormat(fee);
    Fees.ValidAmountRounds(Fees.CalculateFee(amount, cfg.percentage).fee, n);
    var shares := Fees.Shares(cfg.members, Quo(fee, n));
    Fees.TotalShares(cfg.members, Quo(fee, n));
    assert SubmissionKey(cfg, memo).transfers[..n] == shares;
  }

  /** No fee row has an empty schedule id. */
  predicate NoFailedFee(tb: Tables) {
    forall k :: k in tb.fees ==> tb.fees[k].scheduleId != ""
  }

  /** In every reachable state, the fee row of a failed execution is stored if and only if the
      database accepts the write and no earlier failed execution has left its row: the schedule
      id of such rows is empty, and that column is unique. */
  lemma FailedFeeStoredIff(cfg: Config, n: nat, actions: seq<Action>, i: nat, ok: bool)
    requires i < |Run(cfg, n, actions).tasks| && Run(cfg, n, actions).tasks[i].stage.FailFee?
    requires Run(cfg, n, actions).tasks[i].v < n
    ensures var s := Run(cfg, n, actions);
            var task := s.tasks[i];
            var tb, tb' := s.tables[task.v], Apply(cfg, s, WriteRow(i, ok)).tables[task.v];
            && tb'.burns == tb.burns
            && (tb' != tb <==> ok && NoFailedFee(tb))
            && (tb' != tb ==> exists k :: k in tb'.fees && tb'.fees[k].owner == task.memo && tb'.fees[k].status.Failed?)
  {
    RunInv(cfg, n, actions);
    hide Run, SubmissionKey, FeeAmount, Lockstep;
    var s := Run(cfg, n, actions);
    var task := s.tasks[i];
    var tb := s.tables[task.v];
    assert TaskOk(cfg, s, task) && TablesOk(cfg, tb, s.net);
    var key := if task.memo.Burn? then task.stage.txId else "";
    if task.memo.Burn? {
      NetIssued(cfg, s.net, task.memo, key);
      FeeOwner(cfg, tb, s.net, task.memo, key);
      NoneOwned(tb, task.memo);
    }
    assert NoFailedFee(tb) ==> key !in tb.fees;
    var row := FeeRow("", FeeAmount(cfg, task.memo), Failed, task.memo);
    assert Apply(cfg, s, WriteRow(i, ok)).tables[task.v] == CreateFee(tb, key, row, ok);
    assert ok && NoFailedFee(tb) ==> CreateFee(tb, key, row, ok).fees[key] == row;
  }

  /** So a validator ever stores at most one such row. */
  lemma SecondFailureLeavesNoFeeRow(cfg: Config, n: nat, actions: seq<Action>, v: nat, k: TxId, l: TxId)
    requires v < n && k in Run(cfg, n, actions).tables[v].fees && l in Run(cfg, n, actions).tables[v].fees
    requires Run(cfg, n, actions).tables[v].fees[k].scheduleId == ""
    requires Run(cfg, n, actions).tables[v].fees[l].scheduleId == ""
    ensures k == l
  {
    hide Run, SubmissionKey, FeeAmount;
    RunInv(cfg, n, actions);
    assert TablesOk(cfg, Run(cfg, n, actions).tables[v], Run(cfg, n, actions).net);
  }

  /** The steps of one burn whose submission fails with a response, all writes accepted. */
  function FailingBurn(i: nat, id: EventId, txId: TxId): seq<Action> {
    [Deliver(0, id), WriteRow(i, true), SubmitTx(i, SubmitError, Schedule(txId, "")),
     WriteRow(i, true), WriteRow(i, true)]
  }

  lemma BurnCreated(cfg: Config, s: State, id: EventId)
    requires |s.tables| == 1 && id !in s.tables[0].burns
    ensures var t := Apply(cfg, Apply(cfg, s, Deliver(0, id)), WriteRow(|s.tasks|, true));
            var row := BurnRow(cfg.events(id).amount, cfg.events(id).recipient, Initial, "", None);
            && t.net == s.net && t.tasks == s.tasks + [Task(0, Burn(id), Submit)]
            && t.tables == [s.tables[0].(burns := s.tables[0].burns[id := row])]
  {}

  lemma BurnRefused(cfg: Config, s: State, before: seq<Task>, id: EventId, txId: TxId)
    requires |s.tables| == 1 && s.tasks == before + [Task(0, Burn(id), Submit)]
    requires txId != "" && txId !in s.net.issued
    ensures var t := Apply(cfg, s, SubmitTx(|before|, SubmitError, Schedule(txId, "")));
            && t.tables == s.tables && t.tasks == before + [Task(0, Burn(id), FailBurn(txId))]
            && t.net.issued == s.net.issued[txId := Burn(id)]
  {
    hide SubmissionKey;
  }

  lemma BurnFailed(cfg: Config, s: State, before: seq<Task>, id: EventId, txId: TxId)
    requires |s.tables| == 1 && s.tasks == before + [Task(0, Burn(id), FailBurn(txId))]
    ensures var t := Apply(cfg, Apply(cfg, s, WriteRow(|before|, true)), WriteRow(|before|, true));
            var tb := SetBurnStatus(s.tables[0], id, Failed);
            && t.net == s.net && |t.tasks| == |before| + 1
            && t.tables == [CreateFee(tb, txId, FeeRow("", FeeAmount(cfg, Burn(id)), Failed, Burn(id)), true)]
  {
    hide FeeAmount, CreateFee;
  }

  lemma FailingBurnRun(cfg: Config, before: seq<Action>, id: EventId, txId: TxId)
    requires var s := Run(cfg, 1, before); id !in s.tables[0].burns && txId != "" && txId !in s.net.issued
    ensures var s, t := Run(cfg, 1, before), Run(cfg, 1, before + FailingBurn(|Run(cfg, 1, before).tasks|, id, txId));
            var row := FeeRow("", FeeAmount(cfg, Burn(id)), Failed, Burn(id));
            && |t.tasks| == |s.tasks| + 1
            && t.net.issued == s.net.issued[txId := Burn(id)]
            && t.tables[0].burns.Keys == s.tables[0].burns.Keys + {id} && t.tables[0].burns[id].status.Failed?
            && (forall x :: x in s.tables[0].burns ==> t.tables[0].burns[x] == s.tables[0].burns[x])
            && t.tables[0].fees == CreateFee(s.tables[0], txId, row, true).fees
  {
    hide Run, Apply, FeeAmount, FeeConflict;
    var s, row := Run(cfg, 1, before), FeeRow("", FeeAmount(cfg, Burn(id)), Failed, Burn(id));
    var a := FailingBurn(|s.tasks|, id, txId);
    RunFive(cfg, before, a);
    BurnCreated(cfg, s, id);
    var created := Apply(cfg, Apply(cfg, s, a[0]), a[1]);
    BurnRefused(cfg, created, s.tasks, id, txId);
    var refused := Apply(cfg, created, a[2]);
    BurnFailed(cfg, refused, s.tasks, id, txId);
    SameFees(s.tables[0], SetBurnStatus(created.tables[0], id, Failed), txId, row);
  }

  lemma SameFees(tb: Tables, tb': Tables, txId: TxId, row: FeeRow)
    requires tb.fees == tb'.fees
    ensures CreateFee(tb, txId, row, true).fees == CreateFee(tb', txId, row, true).fees
  {}

  lemma RunFive(cfg: Config, before: seq<Action>, a: seq<Action>)
    requires |a| == 5
    ensures var s := Apply(cfg, Apply(cfg, Run(cfg, 1, before), a[0]), a[1]);
            Run(cfg, 1, before + a) == Apply(cfg, Apply(cfg, Apply(cfg, s, a[2]), a[3]), a[4])
  {
    hide Apply;
    RunExtend(cfg, 1, before, a[0]);
    RunExtend(cfg, 1, before + [a[0]], a[1]);
    RunExtend(cfg, 1, before + [a[0]] + [a[1]], a[2]);
    RunExtend(cfg, 1, before + [a[0]] + [a[1]] + [a[2]], a[3]);
    RunExtend(cfg, 1, before + [a[0]] + [a[1]] + [a[2]] + [a[3]], a[4]);
    assert before + a == before + [a[0]] + [a[1]] + [a[2]] + [a[3]] + [a[4]];
  }

  /** Of two burns that fail one after the other at one validator, both rows end up FAILED,
      and only the first has a fee row, although the database accepted every write. */
  lemma SecondFailedBurn(cfg: Config, a: EventId, b: EventId)
    requires a != b
    ensures var tb := Run(cfg, 1, FailingBurn(0, a, "t1") + FailingBurn(1, b, "t2")).tables[0];
            && a in tb.burns && tb.burns[a].status.Failed? && OwnedFees(tb, Burn(a)) != map[]
            && b in tb.burns && tb.burns[b].status.Failed? && OwnedFees(tb, Burn(b)) == map[]
  {
    hide Run, FailingBurn, FeeAmount;
    var first := FailingBurn(0, a, "t1");
    StartRun(cfg);
    assert [] + first == first;
    FailingBurnRun(cfg, [], a, "t1");
    FailingBurnRun(cfg, first, b, "t2");
    var tb := Run(cfg, 1, first + FailingBurn(1, b, "t2")).tables[0];
    assert "t1" in OwnedFees(tb, Burn(a));
  }
}
