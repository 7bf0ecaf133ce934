/** The burn service, the fee transfer of a deposit and the scheduled service as one
    goroutine executes them on one validator's tables. */
module Callbacks {
  import opened Wrappers
  import opened Int64
  import opened Execution
  import Fees

  /** What submitting a scheduled transaction comes back with. */
  datatype Answer =
    | NoAnswer                                  // an error and no response
    | SubmissionFailed(txId: TxId)              // an error with a response
    | ReceiptFailed(txId: TxId)
    | Receipt(status: ReceiptStatus, txId: TxId, schedule: Schedule)

  datatype ReceiptStatus = ReceiptSuccess | IdenticalScheduleAlreadyCreated | OtherStatus

  /** Which statements the database accepts, in the order they are issued. */
  datatype Accepts = Accepts(create: bool, first: bool, second: bool)

  function AnswerStage(memo: Memo, answer: Answer): Stage {
    match answer
    case NoAnswer => Finished
    case SubmissionFailed(txId) => FailStage(memo, txId)
    case ReceiptFailed(txId) => FailStage(memo, txId)
    case Receipt(OtherStatus, txId, _) => FailStage(memo, txId)
    case Receipt(_, _, schedule) => SuccessStage(memo, schedule)
  }

  /** A callback's writes in order: the second is attempted if the first reaches it. */
  function Both(cfg: Config, tb: Tables, memo: Memo, stage: Stage, first: bool, second: bool): Written {
    var w := Write(cfg, tb, memo, stage, first);
    if w.stage.FailFee? || w.stage.SubmittedFee? || w.stage.MinedFee?
    then Write(cfg, w.tables, memo, w.stage, second) else w
  }

  // ----- what the callbacks record -----

  /** After an accepted submission: the burn row is SUBMITTED with its schedule and transaction,
      unless the write fails or another event has that transaction; then, and for a deposit at
      once, a SUBMITTED fee row under the transaction id, unless its write fails or one of its
      two unique columns is taken. Nothing else changes. */
  predicate SubmissionRecorded(cfg: Config, before: Tables, after: Tables, memo: Memo, schedule: Schedule,
                               first: bool, second: bool)
  {
    var taken :=
      && memo.Burn?
      && exists k :: k in before.burns && k != memo.eventId && before.burns[k].txId == Some(schedule.txId);
    var burnWritten := memo.Burn? ==> first && !taken;
    var feeWritten :=
      && burnWritten && (if memo.Burn? then second else first)
      && schedule.txId !in before.fees
      && forall k :: k in before.fees ==> before.fees[k].scheduleId != schedule.scheduleId;
    var row := FeeRow(schedule.scheduleId, FeeAmount(cfg, memo), Submitted, memo);
    && after.burns == (if memo.Burn? && burnWritten && memo.eventId in before.burns
                       then before.burns[memo.eventId := before.burns[memo.eventId].(
                              status := Submitted, scheduleId := schedule.scheduleId, txId := Some(schedule.txId))]
                       else before.burns)
    && after.fees == (if feeWritten then before.fees[schedule.txId := row] else before.fees)
  }

  /** After a failed submission: the burn row is FAILED, unless the write fails; then, and for a
      deposit at once, a FAILED fee row without a schedule, for a deposit without a transaction
      id too. Nothing else changes. */
  predicate FailureRecorded(cfg: Config, before: Tables, after: Tables, memo: Memo, txId: TxId,
                            first: bool, second: bool)
  {
    var key := if memo.Burn? then txId else "";
    var feeWritten :=
      && first && (memo.Burn? ==> second)
      && key !in before.fees && forall k :: k in before.fees ==> before.fees[k].scheduleId != "";
    && after.burns == (if memo.Burn? && first && memo.eventId in before.burns
                       then before.burns[memo.eventId := before.burns[memo.eventId].(status := Failed)]
                       else before.burns)
    && after.fees == (if feeWritten then before.fees[key := FeeRow("", FeeAmount(cfg, memo), Failed, memo)]
                      else before.fees)
  }

  /** After the mirror node reported the transaction: the burn row, and then the fee row of that
      transaction, are COMPLETED for a success and FAILED otherwise, as far as the writes are
      accepted. Nothing else changes. */
  predicate OutcomeRecorded(before: Tables, after: Tables, memo: Memo, txId: TxId, success: bool,
                            first: bool, second: bool)
  {
    var status := if success then Completed else Failed;
    && after.burns == (if memo.Burn? && first && memo.eventId in before.burns
                       then before.burns[memo.eventId := before.burns[memo.eventId].(status := status)]
                       else before.burns)
    && after.fees == (if first && (memo.Burn? ==> second) && txId in before.fees
                      then before.fees[txId := before.fees[txId].(status := status)] else before.fees)
  }

  /** What Execute records for each answer. */
  predicate AnswerRecorded(cfg: Config, before: Tables, after: Tables, memo: Memo, answer: Answer,
                           first: bool, second: bool)
  {
    match answer
    case NoAnswer => after == before
    case SubmissionFailed(txId) => FailureRecorded(cfg, before, after, memo, txId, first, second)
    case ReceiptFailed(txId) => FailureRecorded(cfg, before, after, memo, txId, first, second)
    case Receipt(OtherStatus, txId, _) => FailureRecorded(cfg, before, after, memo, txId, first, second)
    case Receipt(ReceiptSuccess, _, schedule) => SubmissionRecorded(cfg, before, after, memo, schedule, first, second)
    case Receipt(IdenticalScheduleAlreadyCreated, _, schedule) =>
      SubmissionRecorded(cfg, before, after, memo, schedule, first, second)
  }

  class Service {
    const cfg: Config
    var burns: map<EventId, BurnRow>
    var fees: map<TxId, FeeRow>

    /** The list of the last scheduled transaction this service submitted. */
    var submitted: Option<Key>

    constructor (cfg: Config)
      ensures this.cfg == cfg && Snapshot() == Tables(map[], map[]) && submitted == None
    {
      this.cfg, burns, fees, submitted := cfg, map[], map[], None;
    }

    function Snapshot(): Tables
      reads this
    {
      Tables(burns, fees)
    }

    method CreateFeeRow(txId: TxId, row: FeeRow, ok: bool) returns (err: bool)
      modifies this`fees
      ensures Snapshot() == CreateFee(old(Snapshot()), txId, row, ok)
      ensures err <==> !ok || FeeConflict(old(Snapshot()), txId, row.scheduleId)
    {
      if !ok || FeeConflict(Snapshot(), txId, row.scheduleId) {
        return true;
      }
      fees := fees[txId := row];
      err := false;
    }

    method UpdateFeeStatus(txId: TxId, status: Status, ok: bool) returns (err: bool)
      modifies this`fees
      ensures Snapshot() == if ok then SetFeeStatus(old(Snapshot()), txId, status) else old(Snapshot())
      ensures err <==> !ok
    {
      if ok && txId in fees {
        fees := fees[txId := fees[txId].(status := status)];
      }
      err := !ok;
    }

    method UpdateBurnStatus(id: EventId, status: Status, ok: bool) returns (err: bool)
      modifies this`burns
      ensures Snapshot() == if ok then SetBurnStatus(old(Snapshot()), id, status) else old(Snapshot())
      ensures err <==> !ok
    {
      if ok && id in burns {
        burns := burns[id := burns[id].(status := status)];
      }
      err := !ok;
    }

    method UpdateBurnSubmitted(id: EventId, schedule: Schedule, ok: bool) returns (err: bool)
      modifies this`burns
      ensures err <==> !ok || TxIdTaken(old(Snapshot()), id, schedule.txId)
      ensures Snapshot() == if err then old(Snapshot()) else SetBurnSubmitted(old(Snapshot()), id, schedule)
    {
      if !ok || TxIdTaken(Snapshot(), id, schedule.txId) {
        return true;
      }
      if id in burns {
        burns := burns[id := burns[id].(status := Submitted,
                                        scheduleId := schedule.scheduleId, txId := Some(schedule.txId))];
      }
      err := false;
    }

    method OnExecutionSuccess(memo: Memo, schedule: Schedule, first: bool, second: bool)
      modifies this`burns, this`fees
      ensures Snapshot() == Both(cfg, old(Snapshot()), memo, SuccessStage(memo, schedule), first, second).tables
      ensures SubmissionRecorded(cfg, old(Snapshot()), Snapshot(), memo, schedule, first, second)
      ensures memo.Burn? && first && memo.eventId in old(burns)
              && (forall k :: k in old(burns) && k != memo.eventId ==> old(burns)[k].txId != Some(schedule.txId)) ==>
                && memo.eventId in burns && burns[memo.eventId].status == Submitted
                && burns[memo.eventId].txId == Some(schedule.txId)
                && burns[memo.eventId].scheduleId == schedule.scheduleId
    {
      var ok := first;
      if memo.Burn? {
        var err := UpdateBurnSubmitted(memo.eventId, schedule, first);
        if err {
          return;
        }
        ok := second;
      }
      var err := CreateFeeRow(schedule.txId, FeeRow(schedule.scheduleId, FeeAmount(cfg, memo), Submitted, memo), ok);
    }

    method OnExecutionFail(memo: Memo, txId: TxId, first: bool, second: bool)
      modifies this`burns, this`fees
      ensures Snapshot() == Both(cfg, old(Snapshot()), memo, FailStage(memo, txId), first, second).tables
      ensures FailureRecorded(cfg, old(Snapshot()), Snapshot(), memo, txId, first, second)
      ensures memo.Burn? && first && memo.eventId in old(burns) ==>
                memo.eventId in burns && burns[memo.eventId].status == Failed
    {
      var ok, key := first, "";
      if memo.Burn? {
        var err := UpdateBurnStatus(memo.eventId, Failed, first);
        if err {
          return;
        }
        ok, key := second, txId;
      }
      var err := CreateFeeRow(key, FeeRow("", FeeAmount(cfg, memo), Failed, memo), ok);
    }

    /** The callback for a mined scheduled transaction: first the burn row, then the fee row,
        stopping at the first failed write. */
    method OnMined(memo: Memo, txId: TxId, success: bool, first: bool, second: bool)
      modifies this`burns, this`fees
      ensures Snapshot() == Both(cfg, old(Snapshot()), memo,
                                 if memo.Burn? then MinedBurn(txId, success) else MinedFee(txId, success),
                                 first, second).tables
      ensures OutcomeRecorded(old(Snapshot()), Snapshot(), memo, txId, success, first, second)
      ensures memo.Burn? && first && memo.eventId in old(burns) ==>
                memo.eventId in burns && burns[memo.eventId].status == if success then Completed else Failed
      ensures first && (memo.Burn? ==> second) && txId in old(fees) ==>
                txId in fees && fees[txId].status == if success then Completed else Failed
    {
      var ok := first;
      if memo.Burn? {
        var err := UpdateBurnStatus(memo.eventId, Outcome(success), first);
        if err {
          return;
        }
        ok := second;
      }
      var err := UpdateFeeStatus(txId, Outcome(success), ok);
    }

    /** Submits the scheduled transaction and runs the callback its answer calls for. The
        result is the transaction to poll the mirror node for, if there is one: the
        success callback leads to polling even when one of its writes failed. */
    method Execute(memo: Memo, key: Key, answer: Answer, first: bool, second: bool) returns (waiting: Option<TxId>)
      modifies this
      ensures submitted == Some(key)
      ensures Snapshot() == Both(cfg, old(Snapshot()), memo, AnswerStage(memo, answer), first, second).tables
      ensures var stage := Both(cfg, old(Snapshot()), memo, AnswerStage(memo, answer), first, second).stage;
              waiting == if stage.Waiting? then Some(stage.txId) else None
      ensures AnswerRecorded(cfg, old(Snapshot()), Snapshot(), memo, answer, first, second)
      ensures waiting
              == if && answer.Receipt?
                    && (answer.status == ReceiptSuccess || answer.status == IdenticalScheduleAlreadyCreated)
                 then Some(answer.schedule.txId) else None
      ensures memo.Burn? && first && memo.eventId in old(burns) ==>
                && memo.eventId in burns
                && (answer.SubmissionFailed? || answer.ReceiptFailed? ==> burns[memo.eventId].status == Failed)
                && (answer.Receipt? && answer.status == OtherStatus ==> burns[memo.eventId].status == Failed)
                && (answer.Receipt? && answer.status != OtherStatus
                    && (forall k :: k in old(burns) && k != memo.eventId ==>
                          old(burns)[k].txId != Some(answer.schedule.txId)) ==>
                      && burns[memo.eventId].status == Submitted
                      && burns[memo.eventId].txId == Some(answer.schedule.txId)
                      && burns[memo.eventId].scheduleId == answer.schedule.scheduleId)
    {
      hide Both, AnswerRecorded, SubmissionRecorded, FailureRecorded;
      BothRecords(cfg, Snapshot(), memo, answer, first, second);
      submitted := Some(key);
      match answer {
        case NoAnswer =>
          return None;
        case SubmissionFailed(txId) =>
          OnExecutionFail(memo, txId, first, second);
          return None;
        case ReceiptFailed(txId) =>
          OnExecutionFail(memo, txId, first, second);
          return None;
        case Receipt(status, txId, schedule) =>
          // for an identical schedule a signature is submitted, whose outcome is only logged
          if status.OtherStatus? {
            OnExecutionFail(memo, txId, first, second);
            return None;
          }
          OnExecutionSuccess(memo, schedule, first, second);
          return Some(schedule.txId);
      }
    }

    /** Records the event, prepares its transfers and executes them; an event that has a row
        already is left alone. */
    method ProcessEvent(id: EventId, answer: Answer, db: Accepts) returns (waiting: Option<TxId>)
      modifies this
      ensures var created := Write(cfg, old(Snapshot()), Burn(id), Create, db.create);
              var done := Both(cfg, created.tables, Burn(id), AnswerStage(Burn(id), answer), db.first, db.second);
              if created.stage.Submit? then
                && submitted == Some(SubmissionKey(cfg, Burn(id)))
                && Snapshot() == done.tables
                && waiting == if done.stage.Waiting? then Some(done.stage.txId) else None
              else Snapshot() == old(Snapshot()) && waiting == None && submitted == old(submitted)
      ensures if db.create && id !in old(burns) then
                var e := cfg.events(id);
                var created := old(burns)[id := BurnRow(e.amount, e.recipient, Initial, "", None)];
                && submitted == Some(SubmissionKey(cfg, Burn(id)))
                && AnswerRecorded(cfg, Tables(created, old(fees)), Snapshot(), Burn(id), answer, db.first, db.second)
                && waiting == if answer.Receipt? && answer.status != OtherStatus then Some(answer.schedule.txId)
                              else None
              else burns == old(burns) && fees == old(fees) && waiting == None && submitted == old(submitted)
    {
      var event := cfg.events(id);
      if !db.create || id in burns {
        return None;
      }
      burns := burns[id := BurnRow(event.amount, event.recipient, Initial, "", None)];
      var recipientAmount, feeAmount, transfers :=
        Fees.PrepareTransfers(cfg.members, cfg.bridge, event.recipient, event.amount, cfg.percentage);
      if transfers.Failure? {
        return None;
      }
      waiting := Execute(Burn(id), Key(Burn(id), event.nativeAsset, transfers.value), answer, db.first, db.second);
    }

    /** Pays a deposit's fee to the members. */
    method ProcessFeeTransfer(id: TransferId, answer: Answer, db: Accepts) returns (waiting: Option<TxId>)
      modifies this
      ensures submitted == Some(SubmissionKey(cfg, Deposit(id)))
      ensures var done := Both(cfg, old(Snapshot()), Deposit(id), AnswerStage(Deposit(id), answer),
                               db.first, db.second);
              && Snapshot() == done.tables
              && waiting == if done.stage.Waiting? then Some(done.stage.txId) else None
      ensures AnswerRecorded(cfg, old(Snapshot()), Snapshot(), Deposit(id), answer, db.first, db.second)
      ensures waiting == if answer.Receipt? && answer.status != OtherStatus then Some(answer.schedule.txId) else None
    {
      var deposit := cfg.deposits(id);
      var feeAmount := Fees.ChargedFee(deposit.amount, cfg.percentage, |cfg.members|);
      Fees.ValidAmountRounds(Fees.CalculateFee(deposit.amount, cfg.percentage).fee, |cfg.members|);
      var transfers := Fees.CalculateMemberDistribution(cfg.members, feeAmount);
      if transfers.Failure? {
        return None;
      }
      var list := transfers.value + [Fees.HederaTransfer(cfg.bridge, Wrap(-(feeAmount as int)))];
      waiting := Execute(Deposit(id), Key(Deposit(id), deposit.nativeAsset, list), answer, db.first, db.second);
    }
  }

  // ----- Execute is one of the machine's runs -----

  /** The network's reply behind an answer: the receipt of an accepted submission has the
      schedule of the entity that the submission created or found. */
  predicate Matches(cfg: Config, net: Network, memo: Memo, reply: Reply, ids: Schedule, answer: Answer) {
    var key := SubmissionKey(cfg, memo);
    match answer
    case NoAnswer => reply == NoResponse
    case SubmissionFailed(txId) => reply == SubmitError && txId == ids.txId
    case ReceiptFailed(txId) => reply.ReceiptError? && txId == ids.txId
    case Receipt(OtherStatus, txId, _) => reply == Rejected && txId == ids.txId
    case Receipt(ReceiptSuccess, _, schedule) => reply == Accepted && key !in net.schedules && schedule == ids
    case Receipt(IdenticalScheduleAlreadyCreated, _, schedule) =>
      reply == Accepted && key in net.schedules && schedule == net.schedules[key]
  }

  /** The sequential Execute is a run of the machine: submitting, and then the writes with the
      same outcomes, leaves the tables that `Execute` leaves, so what it records is what the
      machine records, reply by reply; the task then polls exactly what `Execute` polls. */
  lemma ExecuteIsRun(cfg: Config, n: nat, before: seq<Action>, i: nat, reply: Reply, ids: Schedule, answer: Answer,
                     first: bool, second: bool)
    requires var s := Run(cfg, n, before);
             && i < |s.tasks| && s.tasks[i].stage == Submit && s.tasks[i].v < n
             && ids.txId != "" && ids.txId !in s.net.issued
             && Matches(cfg, s.net, s.tasks[i].memo, reply, ids, answer)
    ensures var s := Run(cfg, n, before);
            var t := Run(cfg, n, before + [SubmitTx(i, reply, ids)] + [WriteRow(i, first)] + [WriteRow(i, second)]);
            var task := s.tasks[i];
            && t.tables == s.tables[task.v := t.tables[task.v]] && |t.tasks| == |s.tasks|
            && t.tables[task.v]
               == Both(cfg, s.tables[task.v], task.memo, AnswerStage(task.memo, answer), first, second).tables
            && AnswerRecorded(cfg, s.tables[task.v], t.tables[task.v], task.memo, answer, first, second)
            && t.tasks[i].stage == if answer.Receipt? && answer.status != OtherStatus then Waiting(answer.schedule.txId)
                                   else Finished
  {
    hide Run, SubmissionKey, AnswerRecorded;
    var s := Run(cfg, n, before);
    var a, b, c := SubmitTx(i, reply, ids), WriteRow(i, first), WriteRow(i, second);
    RunExtend(cfg, n, before, a);
    RunExtend(cfg, n, before + [a], b);
    RunExtend(cfg, n, before + [a] + [b], c);
    SubmitMatches(cfg, s, i, reply, ids, answer);
    BothRecords(cfg, s.tables[s.tasks[i].v], s.tasks[i].memo, answer, first, second);
    TwoWrites(cfg, Apply(cfg, s, a), i, answer, first, second);
  }

  lemma SubmitMatches(cfg: Config, s: State, i: nat, reply: Reply, ids: Schedule, answer: Answer)
    requires i < |s.tasks| && s.tasks[i].stage == Submit && s.tasks[i].v < |s.tables|
    requires ids.txId != "" && ids.txId !in s.net.issued && Matches(cfg, s.net, s.tasks[i].memo, reply, ids, answer)
    ensures var t := Apply(cfg, s, SubmitTx(i, reply, ids));
            t.tables == s.tables && t.tasks == s.tasks[i := s.tasks[i].(stage := AnswerStage(s.tasks[i].memo, answer))]
  {
    hide SubmissionKey;
  }

  lemma TwoWrites(cfg: Config, s: State, i: nat, answer: Answer, first: bool, second: bool)
    requires i < |s.tasks| && s.tasks[i].v < |s.tables| && s.tasks[i].stage == AnswerStage(s.tasks[i].memo, answer)
    ensures var t, task := Apply(cfg, Apply(cfg, s, WriteRow(i, first)), WriteRow(i, second)), s.tasks[i];
            var w := Both(cfg, s.tables[task.v], task.memo, task.stage, first, second);
            t.tables == s.tables[task.v := w.tables] && t.tasks == s.tasks[i := task.(stage := w.stage)]
  {
    hide FeeAmount, FeeConflict, TxIdTaken;
  }

  lemma BothRecords(cfg: Config, tb: Tables, memo: Memo, answer: Answer, first: bool, second: bool)
    ensures var w := Both(cfg, tb, memo, AnswerStage(memo, answer), first, second);
            && AnswerRecorded(cfg, tb, w.tables, memo, answer, first, second)
            && w.stage == (if answer.Receipt? && answer.status != OtherStatus then Waiting(answer.schedule.txId)
                           else Finished)
            && (answer.NoAnswer? ==> w.tables == tb)
  {
    hide FeeAmount;
  }
}
