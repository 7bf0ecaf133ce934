/** The transfer table and the operations on it, as one goroutine executes them: the
    repository, the handler's gate, the processing of one transfer, and the recovery loops. */
module Transfers {
  import opened Wrappers
  import opened Lifecycle
  import opened Int64
  import Fees
  import Text

  datatype Transfer = Transfer(
    receiver: string,
    amount: string,
    nativeAsset: string,
    wrappedAsset: string,
    routerAddress: string)

  datatype Record = Record(transfer: Transfer, row: Row)

  /** A fee transfer that was started, and a message that was submitted to the topic with the
      signature over it. */
  datatype StartedFee = StartedFee(id: TxId, amount: int64)

  datatype Published = Published(
    id: TxId,
    routerAddress: string,
    receiver: string,
    wrappedAsset: string,
    amount: string)

  /** One validator's transfer table, the fee transfers it has started and the messages it has
      submitted to the topic, both in order. */
  datatype Tables = Tables(records: map<TxId, Record>, fees: seq<StartedFee>, published: seq<Published>)

  /** The fee parameters all validators share. */
  datatype Rates = Rates(percentage: Fees.Percentage, members: Fees.Count)

  /** Which calls of one ProcessTransfer succeed: hashing and signing, the topic submission,
      and the write that records it. */
  datatype Calls = Calls(sign: bool, submit: bool, write: bool)

  /** The signature of a transfer reaches the topic. */
  predicate Publishes(transfer: Transfer, calls: Calls) {
    Text.ParseInt(transfer.amount).Some? && calls.sign && calls.submit
  }

  /** The record after processing `transfer`. */
  function Processed(r: Record, transfer: Transfer, calls: Calls): Record {
    if Publishes(transfer, calls) && calls.write then r.(row := MarkSubmitted(r.row)) else r
  }

  /** The tables after ProcessTransfer: once the amount parses, the fee transfer is started,
      whatever happens to the signature. */
  function ProcessedTables(rates: Rates, tb: Tables, id: TxId, transfer: Transfer, calls: Calls): Tables {
    match Text.ParseInt(transfer.amount)
    case None => tb
    case Some(amount) =>
      var net := Text.FormatInt(Fees.NetAmount(amount, rates.percentage, rates.members));
      Tables(
        if id in tb.records then tb.records[id := Processed(tb.records[id], transfer, calls)] else tb.records,
        tb.fees + [StartedFee(id, Fees.ChargedFee(amount, rates.percentage, rates.members))],
        if Publishes(transfer, calls)
        then tb.published + [Published(id, transfer.routerAddress, transfer.receiver, transfer.wrappedAsset, net)]
        else tb.published)
  }

  /** What the recovery pass processes for a record: its transfer, with the current address of
      the router contract. */
  function Readdressed(transfer: Transfer, router: string): Transfer { transfer.(routerAddress := router) }

  /** The tables after processing the records of `ids` in turn. */
  function ProcessedAll(rates: Rates, router: string, tb: Tables, ids: seq<TxId>, calls: TxId -> Calls): (after: Tables)
    requires forall id :: id in ids ==> id in tb.records
    ensures after.records.Keys == tb.records.Keys
    decreases |ids|
  {
    if ids == [] then tb
    else
      var last := ids[|ids| - 1];
      var before := ProcessedAll(rates, router, tb, ids[..|ids| - 1], calls);
      ProcessedTables(rates, before, last, Readdressed(tb.records[last].transfer, router), calls(last))
  }

  /** Processing distinct ids changes each of their records once, to what the outcome of its own
      calls asks for, and no other. */
  lemma {:induction false} ProcessedAllRecords(rates: Rates, router: string, tb: Tables, ids: seq<TxId>,
                                               calls: TxId -> Calls)
    requires forall id :: id in ids ==> id in tb.records
    requires forall i, j :: 0 <= i < j < |ids| ==> ids[i] != ids[j]
    ensures var after := ProcessedAll(rates, router, tb, ids, calls);
            forall id :: id in tb.records ==>
              var r, c := tb.records[id], calls(id);
              after.records[id]
              == if id in ids && Text.ParseInt(r.transfer.amount).Some? && c.sign && c.submit && c.write
                 then r.(row := Row(InProgress, SignatureSubmitted)) else r
    decreases |ids|
  {
    hide ProcessedTables;
    if ids != [] {
      var n := |ids| - 1;
      ProcessedAllRecords(rates, router, tb, ids[..n], calls);
      assert ids == ids[..n] + [ids[n]] && ids[n] !in ids[..n];
      var t := Readdressed(tb.records[ids[n]].transfer, router);
      ProcessedRecord(rates, ProcessedAll(rates, router, tb, ids[..n], calls), ids[n], t, calls(ids[n]));
    }
  }

  lemma ProcessedRecord(rates: Rates, tb: Tables, id: TxId, t: Transfer, calls: Calls)
    ensures ProcessedTables(rates, tb, id, t, calls).records
            == if id in tb.records && Text.ParseInt(t.amount).Some? && calls.sign && calls.submit && calls.write
               then tb.records[id := tb.records[id].(row := Row(InProgress, SignatureSubmitted))] else tb.records
  {
    hide Fees.ChargedFee, Fees.NetAmount;
  }

  /** What processing distinct ids in turn starts and publishes: for every record whose amount
      parses one fee transfer, of the amount its fee row will hold, and for those that are
      signed and submitted one message, with the record's own fields and the signed amount. */
  lemma {:induction false} ProcessedAllEffects(rates: Rates, router: string, tb: Tables, ids: seq<TxId>,
                                               calls: TxId -> Calls)
    requires forall id :: id in ids ==> id in tb.records
    requires forall i, j :: 0 <= i < j < |ids| ==> ids[i] != ids[j]
    ensures var after := ProcessedAll(rates, router, tb, ids, calls);
            && tb.fees <= after.fees && tb.published <= after.published
            && FeesOf(rates, tb.records, ids, after.fees[|tb.fees|..])
            && MessagesOf(rates, router, tb.records, ids, calls, after.published[|tb.published|..])
    decreases |ids|
  {
    hide ProcessedTables, FeesOf, MessagesOf, Fees.FeeRowAmount, Fees.SignedAmount, Fees.ExpectedAmount;
    if ids == [] {
      assert tb.fees[|tb.fees|..] == [] && tb.published[|tb.published|..] == [];
      NoEffects(rates, router, tb.records, calls);
    } else {
      var n := |ids| - 1;
      var some, id := ids[..n], ids[n];
      ProcessedAllEffects(rates, router, tb, some, calls);
      assert ids == some + [id] && id !in some;
      var before := ProcessedAll(rates, router, tb, some, calls);
      var t := Readdressed(tb.records[id].transfer, router);
      var after := ProcessedTables(rates, before, id, t, calls(id));
      Effects(rates, before, id, t, calls(id));
      OneMoreFee(rates, tb, before, after, some, id);
      OneMoreMessage(rates, router, tb, before, after, some, id, calls);
    }
  }

  lemma NoEffects(rates: Rates, router: string, records: map<TxId, Record>, calls: TxId -> Calls)
    ensures FeesOf(rates, records, [], []) && MessagesOf(rates, router, records, [], calls, [])
  {}

  /** What processing one transfer starts and publishes. */
  lemma Effects(rates: Rates, tb: Tables, id: TxId, transfer: Transfer, calls: Calls)
    ensures var after := ProcessedTables(rates, tb, id, transfer, calls);
            && StartsFee(rates, id, transfer, tb.fees, after.fees)
            && SendsMessage(rates, id, transfer, calls, tb.published, after.published)
  {
    hide Fees.ChargedFee, Fees.NetAmount;
  }

  /** One fee transfer more, if the amount parses: the one whose decimal text is the fee row's. */
  predicate StartsFee(rates: Rates, id: TxId, transfer: Transfer, before: seq<StartedFee>, after: seq<StartedFee>) {
    match Fees.FeeRowAmount(transfer.amount, rates.percentage, rates.members)
    case None => after == before
    case Some(text) =>
      && |after| == |before| + 1 && after == before + [after[|before|]]
      && after[|before|].id == id && Text.FormatInt(after[|before|].amount) == text
  }

  /** One message more, if the amount parses and signing and submission succeed: with the
      transfer's own fields and the signed amount. */
  predicate SendsMessage(rates: Rates, id: TxId, transfer: Transfer, calls: Calls,
                         before: seq<Published>, after: seq<Published>)
  {
    match Fees.SignedAmount(transfer.amount, rates.percentage, rates.members)
    case None => after == before
    case Some(text) =>
      after == if calls.sign && calls.submit
               then before + [Published(id, transfer.routerAddress, transfer.receiver, transfer.wrappedAsset, text)]
               else before
  }

  /** The list has exactly one fee transfer for each id whose amount parses, and its decimal
      text is the fee row's. */
  ghost predicate FeesOf(rates: Rates, records: map<TxId, Record>, ids: seq<TxId>, started: seq<StartedFee>)
    requires forall id :: id in ids ==> id in records
  {
    && (forall k :: 0 <= k < |started| ==>
          && started[k].id in ids
          && Fees.FeeRowAmount(records[started[k].id].transfer.amount, rates.percentage, rates.members)
             == Some(Text.FormatInt(started[k].amount)))
    && (forall id :: id in ids && Text.ParseInt(records[id].transfer.amount).Some? ==>
          exists k :: 0 <= k < |started| && started[k].id == id)
    && (forall j, k :: 0 <= j < k < |started| ==> started[j].id != started[k].id)
  }

  /** The list has exactly one message for each id whose amount parses and that is signed and
      submitted, with the fields of its record and the amount that is signed for it. */
  ghost predicate MessagesOf(rates: Rates, router: string, records: map<TxId, Record>, ids: seq<TxId>,
                             calls: TxId -> Calls, published: seq<Published>)
    requires forall id :: id in ids ==> id in records
  {
    && (forall k :: 0 <= k < |published| ==>
          var m := published[k];
          && m.id in ids && calls(m.id).sign && calls(m.id).submit
          && var t := records[m.id].transfer;
             && m == Published(m.id, router, t.receiver, t.wrappedAsset, m.amount)
             && Fees.SignedAmount(t.amount, rates.percentage, rates.members) == Some(m.amount))
    && (forall id :: id in ids
                     && Text.ParseInt(records[id].transfer.amount).Some? && calls(id).sign && calls(id).submit ==>
          exists k :: 0 <= k < |published| && published[k].id == id)
    && (forall j, k :: 0 <= j < k < |published| ==> published[j].id != published[k].id)
  }

  lemma OneMoreFee(rates: Rates, tb: Tables, before: Tables, after: Tables, ids: seq<TxId>, id: TxId)
    requires id !in ids && id in tb.records && (forall x :: x in ids ==> x in tb.records) && tb.fees <= before.fees
    requires FeesOf(rates, tb.records, ids, before.fees[|tb.fees|..])
    requires exists router ::
               StartsFee(rates, id, Readdressed(tb.records[id].transfer, router), before.fees, after.fees)
    ensures tb.fees <= after.fees && FeesOf(rates, tb.records, ids + [id], after.fees[|tb.fees|..])
  {
    hide Fees.FeeRowAmount;
    var text := tb.records[id].transfer.amount;
    Fees.TextsExistIff(text, rates.percentage, rates.members);
    var started, more := before.fees[|tb.fees|..], after.fees[|tb.fees|..];
    if Text.ParseInt(text).Some? { assert more == started + [after.fees[|before.fees|]]; }
    forall x | x in ids + [id] && Text.ParseInt(tb.records[x].transfer.amount).Some?
      ensures exists k :: 0 <= k < |more| && more[k].id == x
    {
      if x == id {
        assert more[|started|].id == id;
      } else {
        var k :| 0 <= k < |started| && started[k].id == x;
        assert more[k].id == x;
      }
    }
  }

  lemma OneMoreMessage(rates: Rates, router: string, tb: Tables, before: Tables, after: Tables, ids: seq<TxId>,
                       id: TxId, calls: TxId -> Calls)
    requires id !in ids && id in tb.records && (forall x :: x in ids ==> x in tb.records)
    requires tb.published <= before.published
    requires MessagesOf(rates, router, tb.records, ids, calls, before.published[|tb.published|..])
    requires SendsMessage(rates, id, Readdressed(tb.records[id].transfer, router), calls(id),
                          before.published, after.published)
    ensures tb.published <= after.published
    ensures MessagesOf(rates, router, tb.records, ids + [id], calls, after.published[|tb.published|..])
  {
    hide Fees.SignedAmount;
    var text := tb.records[id].transfer.amount;
    Fees.TextsExistIff(text, rates.percentage, rates.members);
    var sent, more := before.published[|tb.published|..], after.published[|tb.published|..];
    if Text.ParseInt(text).Some? && calls(id).sign && calls(id).submit {
      assert more == sent + [after.published[|before.published|]];
    } else {
      assert more == sent;
    }
    forall x | x in ids + [id] && Text.ParseInt(tb.records[x].transfer.amount).Some? && calls(x).sign && calls(x).submit
      ensures exists k :: 0 <= k < |more| && more[k].id == x
    {
      if x == id {
        assert more[|sent|].id == id;
      } else {
        var k :| 0 <= k < |sent| && sent[k].id == x;
        assert more[k].id == x;
      }
    }
  }

  /** A credited ledger entry that the recovery pass has fetched; `None` where a check on
      its amount, asset, memo or state proof fails. `accepted` is whether the database accepts
      a statement when its turn comes. */
  datatype Fetched = Fetched(id: TxId, transfer: Option<Transfer>, accepted: bool)

  predicate Saves(f: Fetched) { f.transfer.Some? && f.accepted }

  /** The records after saving a list of fetched entries: the first valid and accepted entry
      of an id that has no record yet becomes a RECOVERED record. */
  function Saved(records: map<TxId, Record>, entries: seq<Fetched>): map<TxId, Record>
    decreases |entries|
  {
    if entries == [] then records
    else
      var before, last := Saved(records, entries[..|entries| - 1]), entries[|entries| - 1];
      if Saves(last) && last.id !in before
      then before[last.id := Record(last.transfer.value, Row(Recovered, NoSignature))] else before
  }

  /** Saving neither changes nor loses a record, and adds exactly the new ids with a valid and
      accepted entry. */
  lemma {:induction false} SavedKeeps(records: map<TxId, Record>, entries: seq<Fetched>)
    ensures var saved := Saved(records, entries);
            && (forall id :: id in records ==> id in saved && saved[id] == records[id])
            && (forall id :: id in saved && id !in records ==>
                  exists i :: 0 <= i < |entries| && entries[i].id == id && Saves(entries[i])
                              && saved[id] == Record(entries[i].transfer.value, Row(Recovered, NoSignature)))
            && (forall i :: 0 <= i < |entries| && Saves(entries[i]) ==> entries[i].id in saved)
    decreases |entries|
  {
    if entries != [] {
      var n := |entries| - 1;
      SavedKeeps(records, entries[..n]);
      var saved := Saved(records, entries);
      var before := Saved(records, entries[..n]);
      forall id | id in saved && id !in records
        ensures exists i :: 0 <= i < |entries| && entries[i].id == id && Saves(entries[i])
                            && saved[id] == Record(entries[i].transfer.value, Row(Recovered, NoSignature))
      {
        if id in before {
          var i :| 0 <= i < n && entries[..n][i].id == id && Saves(entries[..n][i])
                   && before[id] == Record(entries[..n][i].transfer.value, Row(Recovered, NoSignature));
          assert entries[i].id == id && saved[id] == before[id];
        } else {
          assert entries[n].id == id;
        }
      }
      forall i | 0 <= i < |entries| && Saves(entries[i]) ensures entries[i].id in saved {
        if i < n { assert entries[..n][i] == entries[i]; }
      }
    }
  }

  /** The tables after the handler's gate: it stores a new transfer if the database accepts it,
      and processes it exactly if its record is then INITIAL. */
  function Handled(rates: Rates, tb: Tables, id: TxId, transfer: Transfer, create: bool, calls: Calls): Tables {
    var records := if id in tb.records || !create then tb.records
                   else tb.records[id := Record(transfer, Row(Initial, NoSignature))];
    if id in records && records[id].row.status.Initial?
    then ProcessedTables(rates, tb.(records := records), id, transfer, calls) else tb
  }

  class Service {
    const rates: Rates
    const router: string
    var records: map<TxId, Record>
    var fees: seq<StartedFee>
    var published: seq<Published>

    constructor (rates: Rates, router: string)
      ensures this.rates == rates && this.router == router && Snapshot() == Tables(map[], [], [])
    {
      this.rates, this.router, records, fees, published := rates, router, map[], [], [];
    }

    function Snapshot(): Tables
      reads this
    {
      Tables(records, fees, published)
    }

    /** Whether a signature status is among those the column may be set to. */
    method IsValidStatus(status: SignatureStatus, possible: seq<SignatureStatus>) returns (valid: bool)
      ensures valid <==> status in possible
    {
      for i := 0 to |possible|
        invariant status !in possible[..i]
      {
        if possible[i] == status {
          return true;
        }
      }
      return false;
    }

    method Create(id: TxId, transfer: Transfer, status: Status, ok: bool) returns (err: bool)
      modifies this`records
      ensures err <==> !ok || id in old(records)
      ensures records == if err then old(records) else old(records)[id := Record(transfer, Row(status, NoSignature))]
    {
      if !ok || id in records {
        return true;
      }
      records := records[id := Record(transfer, Row(status, NoSignature))];
      err := false;
    }

    /** Sets the signature status of one transfer; empty is not a status to set. */
    method UpdateSignatureStatus(id: TxId, status: SignatureStatus, ok: bool) returns (err: bool)
      modifies this`records
      ensures err <==> !ok || status.NoSignature?
      ensures records == if !err && id in old(records)
                         then old(records)[id := old(records)[id].(row := old(records)[id].row.(signature := status))]
                         else old(records)
    {
      var valid := IsValidStatus(status, [SignatureSubmitted, SignatureMined, SignatureFailed]);
      if !valid || !ok {
        return true;
      }
      if id in records {
        records := records[id := records[id].(row := records[id].row.(signature := status))];
      }
      err := false;
    }

    method UpdateStatusSignatureSubmitted(id: TxId, ok: bool) returns (err: bool)
      modifies this`records
      ensures err <==> !ok
      ensures records == if ok && id in old(records)
                         then old(records)[id := old(records)[id].(row := Row(InProgress, SignatureSubmitted))]
                         else old(records)
    {
      if ok && id in records {
        records := records[id := records[id].(row := MarkSubmitted(records[id].row))];
      }
      err := !ok;
    }

    /** Sets the signature status once the mirror node has reported the topic message. */
    method OnAuthMessageMined(id: TxId, success: bool, ok: bool)
      modifies this`records
      ensures records == if ok && id in old(records)
                         then old(records)[id := old(records)[id].(row := old(records)[id].row.(
                                signature := if success then SignatureMined else SignatureFailed))]
                         else old(records)
    {
      var err := UpdateSignatureStatus(id, if success then SignatureMined else SignatureFailed, ok);
    }

    /** Starts the fee transfer of a transfer, then signs and submits it. The fee started is the
        one whose text the fee row will hold, the message carries the transfer's fields and the
        signed amount, and that is what a reader of amount and fee row expects. */
    method ProcessTransfer(id: TxId, transfer: Transfer, calls: Calls) returns (err: bool)
      modifies this
      ensures Snapshot() == ProcessedTables(rates, old(Snapshot()), id, transfer, calls)
      ensures err <==> !(Text.ParseInt(transfer.amount).Some? && calls.sign && calls.submit && calls.write)
      ensures records == if !err && id in old(records)
                         then old(records)[id := old(records)[id].(row := Row(InProgress, SignatureSubmitted))]
                         else old(records)
      ensures Text.ParseInt(transfer.amount).None? ==> fees == old(fees) && published == old(published)
      ensures Text.ParseInt(transfer.amount).Some? ==>
                && |fees| == |old(fees)| + 1
                && var fee := fees[|old(fees)|];
                   && fees == old(fees) + [fee] && fee.id == id
                   && Fees.FeeRowAmount(transfer.amount, rates.percentage, rates.members)
                      == Some(Text.FormatInt(fee.amount))
                   && if calls.sign && calls.submit then
                        && |published| == |old(published)| + 1
                        && var m := published[|old(published)|];
                           && published == old(published) + [m]
                           && m.id == id && m.routerAddress == transfer.routerAddress
                           && m.receiver == transfer.receiver && m.wrappedAsset == transfer.wrappedAsset
                           && Fees.SignedAmount(transfer.amount, rates.percentage, rates.members) == Some(m.amount)
                           && Fees.ExpectedAmount(transfer.amount, Text.FormatInt(fee.amount)) == Some(m.amount)
                      else published == old(published)
    {
      hide Fees.CalculateFee, Fees.ValidAmount, Fees.ChargedFee, Fees.NetAmount, Fees.FeeRowAmount, Fees.SignedAmount,
           Fees.ExpectedAmount;
      var intAmount := Text.ParseInt(transfer.amount);
      if intAmount.None? {
        return true;
      }
      Fees.SplitSteps(transfer.amount, rates.percentage, rates.members);
      var split := Fees.CalculateFee(intAmount.value, rates.percentage);
      var remainder := split.remainder;
      var validFee := Fees.ValidAmount(split.fee, rates.members);
      if validFee != split.fee {
        remainder := Wrap(remainder + Wrap(split.fee - validFee));
      }
      fees := fees + [StartedFee(id, validFee)];
      if !calls.sign || !calls.submit {
        return true;
      }
      var wrappedAmount := Text.FormatInt(remainder);
      published := published
        + [Published(id, transfer.routerAddress, transfer.receiver, transfer.wrappedAsset, wrappedAmount)];
      err := UpdateStatusSignatureSubmitted(id, calls.write);
    }

    /** The handler's gate: processes a delivered transfer if it had no record, and one could
        be created, or an INITIAL one. Then the fee started, the message published and the
        status written are as for `ProcessTransfer`. */
    method Handle(id: TxId, transfer: Transfer, create: bool, calls: Calls) returns (entered: bool)
      modifies this
      ensures entered <==> if id in old(records) then old(records)[id].row.status == Initial else create
      ensures Snapshot() == Handled(rates, old(Snapshot()), id, transfer, create, calls)
      ensures !entered ==> records == old(records)
      ensures entered ==>
                && id in records
                && var r := if id in old(records) then old(records)[id]
                            else Record(transfer, Row(Initial, NoSignature));
                   var done := Text.ParseInt(transfer.amount).Some? && calls.sign && calls.submit && calls.write;
                   records
                   == old(records)[id := if done then r.(row := Row(InProgress, SignatureSubmitted)) else r]
      ensures !entered ==> fees == old(fees) && published == old(published)
      ensures entered ==> StartsFee(rates, id, transfer, old(fees), fees)
      ensures entered ==> SendsMessage(rates, id, transfer, calls, old(published), published)
    {
      hide ProcessedTables, Fees.FeeRowAmount, Fees.SignedAmount, Fees.ExpectedAmount;
      Fees.TextsExistIff(transfer.amount, rates.percentage, rates.members);
      entered := false;
      if id !in records {
        var err := Create(id, transfer, Initial, create);
        if err {
          return;
        }
      }
      if records[id].row.status != Initial {
        return;
      }
      entered := true;
      var err := ProcessTransfer(id, transfer, calls);
    }

    /** Persists the fetched entries, skipping those that fail a check, have a record, or meet a
        failing write. */
    method TransfersRecovery(entries: seq<Fetched>)
      modifies this`records
      ensures records == Saved(old(records), entries)
    {
      for i := 0 to |entries|
        invariant records == Saved(old(records), entries[..i])
      {
        assert entries[..i + 1][..i] == entries[..i];
        if entries[i].transfer.None? {
          continue;
        }
        var err := Create(entries[i].id, entries[i].transfer.value, Recovered, entries[i].accepted);
        if err {
          continue;
        }
      }
      assert entries[..|entries|] == entries;
    }

    /** The ids of the records with status INITIAL or RECOVERED, each once. */
    method GetUnprocessedTransfers() returns (ids: seq<TxId>)
      ensures forall id :: id in ids <==>
                id in records && (records[id].row.status == Initial || records[id].row.status == Recovered)
      ensures forall i, j :: 0 <= i < j < |ids| ==> ids[i] != ids[j]
    {
      ids := [];
      var left := set id | id in records && Unprocessed(records[id].row);
      while left != {}
        invariant forall id :: id in ids || id in left <==> id in records && Unprocessed(records[id].row)
        invariant forall id :: id in left ==> id !in ids
        invariant forall i, j :: 0 <= i < j < |ids| ==> ids[i] != ids[j]
        decreases |left|
      {
        var id :| id in left;
        left := left - {id};
        ids := ids + [id];
      }
    }

    /** Processes every INITIAL or RECOVERED record exactly once, going on after failures; all
        other records stay as they are. `FeesOf` and `MessagesOf` say what is started and
        published for them. */
    method ProcessUnfinishedOperations(calls: TxId -> Calls) returns (entered: seq<TxId>)
      modifies this
      ensures forall id :: id in entered <==>
                && id in old(records)
                && (old(records)[id].row.status == Initial || old(records)[id].row.status == Recovered)
      ensures forall i, j :: 0 <= i < j < |entered| ==> entered[i] != entered[j]
      ensures records.Keys == old(records).Keys
      ensures forall id :: id in old(records) ==>
                var r, c := old(records)[id], calls(id);
                records[id]
                == if id in entered && Text.ParseInt(r.transfer.amount).Some? && c.sign && c.submit && c.write
                   then r.(row := Row(InProgress, SignatureSubmitted)) else r
      ensures old(fees) <= fees && FeesOf(rates, old(records), entered, fees[|old(fees)|..])
      ensures old(published) <= published
      ensures MessagesOf(rates, router, old(records), entered, calls, published[|old(published)|..])
    {
      hide ProcessedTables, FeesOf, MessagesOf, Fees.FeeRowAmount, Fees.SignedAmount, Fees.ExpectedAmount;
      ghost var start := Snapshot();
      entered := GetUnprocessedTransfers();
      for i := 0 to |entered|
        invariant Snapshot() == ProcessedAll(rates, router, start, entered[..i], calls)
        invariant forall id :: id in start.records ==>
                    id in records && records[id].transfer == start.records[id].transfer
      {
        assert entered[i] in entered && entered[..i + 1][..i] == entered[..i];
        var t := records[entered[i]].transfer;
        var err := ProcessTransfer(entered[i], Transfer(t.receiver, t.amount, t.nativeAsset, t.wrappedAsset, router),
                                   calls(entered[i]));
        if err {
          continue;
        }
      }
      assert entered[..|entered|] == entered;
      ProcessedAllRecords(rates, router, start, entered, calls);
      ProcessedAllEffects(rates, router, start, entered, calls);
    }

    /** The recovery pass over the transfers: it processes every deposit it finds, made while the
        validator was down and passing all checks and writes, exactly once, together with what
        earlier runs left INITIAL or RECOVERED, and nothing else. */
    method Recover(entries: seq<Fetched>, calls: TxId -> Calls) returns (entered: seq<TxId>)
      modifies this
      ensures forall id :: id in entered <==>
                if id in old(records)
                then old(records)[id].row.status == Initial || old(records)[id].row.status == Recovered
                else exists i :: 0 <= i < |entries|
                                 && entries[i].id == id && entries[i].transfer.Some? && entries[i].accepted
      ensures forall i, j :: 0 <= i < j < |entered| ==> entered[i] != entered[j]
    {
      ghost var start := records;
      TransfersRecovery(entries);
      SavedKeeps(start, entries);
      entered := ProcessUnfinishedOperations(calls);
    }
  }

  // ----- the handler is one of the lifecycle's runs -----

  /** The statuses of a table's records. */
  function Rows(records: map<TxId, Record>): map<TxId, Row> {
    map id | id in records :: records[id].row
  }

  /** The calls of one handler with their outcomes; after it has finished they change nothing. */
  function HandlerRun(i: nat, recorded: bool, create: bool, publishes: bool, write: bool): seq<Action> {
    (if recorded then [Advance(i, true)] else [Advance(i, true)] + [Advance(i, create)])
    + [Advance(i, publishes)] + [Advance(i, write)]
  }

  /** The calls of ProcessTransfer, or nothing when the task has finished. */
  lemma LastTwoSteps(s: State, i: nat, id: TxId, publishes: bool, write: bool)
    requires i < |s.tasks| && s.tasks[i].tx == id
    requires s.tasks[i].stage.Finished? || (s.tasks[i].stage.Submit? && id in s.rows)
    ensures var t := Step(Step(s, i, publishes), i, write);
            && t.rows == (if s.tasks[i].stage.Submit? && publishes && write
                          then s.rows[id := MarkSubmitted(s.rows[id])] else s.rows)
            && t.entered == s.entered
  {}

  /** The first call, or two, up to the entry into ProcessTransfer. */
  lemma FirstSteps(s: State, i: nat, id: TxId, create: bool)
    requires i < |s.tasks| && s.tasks[i] == Task(id, Lookup)
    ensures var recorded := id in s.rows;
            var t := if recorded then Step(s, i, true) else Step(Step(s, i, true), i, create);
            var enters := if recorded then s.rows[id].status.Initial? else create;
            && i < |t.tasks| && t.tasks[i] == Task(id, if enters then Submit else Finished)
            && t.rows == (if recorded || !create then s.rows else s.rows[id := Row(Initial, NoSignature)])
            && t.entered[id] == s.entered[id] + if enters then 1 else 0
  {}

  lemma HandlerSteps(ts: Clock, s: State, i: nat, recorded: bool, create: bool, publishes: bool, write: bool)
    requires i < |s.tasks|
    ensures var t := if recorded then Step(s, i, true) else Step(Step(s, i, true), i, create);
            Continue(ts, s, HandlerRun(i, recorded, create, publishes, write)) == Step(Step(t, i, publishes), i, write)
  {
    hide Continue, Step, Apply;
    var a, b, c, d := Advance(i, true), Advance(i, create), Advance(i, publishes), Advance(i, write);
    var begun := if recorded then [a] else [a] + [b];
    BegunSteps(ts, s, i, create);
    ContinueExtend(ts, s, begun, c);
    ContinueExtend(ts, s, begun + [c], d);
    var t := Continue(ts, s, begun);
    AdvanceIsStep(ts, t, i, publishes);
    AdvanceIsStep(ts, Step(t, i, publishes), i, write);
  }

  lemma BegunSteps(ts: Clock, s: State, i: nat, create: bool)
    requires i < |s.tasks|
    ensures Continue(ts, s, [Advance(i, true)]) == Step(s, i, true)
    ensures Continue(ts, s, [Advance(i, true)] + [Advance(i, create)]) == Step(Step(s, i, true), i, create)
  {
    hide Continue, Step, Apply;
    ContinueNone(ts, s);
    ContinueExtend(ts, s, [], Advance(i, true));
    assert [] + [Advance(i, true)] == [Advance(i, true)];
    ContinueExtend(ts, s, [Advance(i, true)], Advance(i, create));
    AdvanceIsStep(ts, s, i, true);
    AdvanceIsStep(ts, Step(s, i, true), i, create);
  }

  lemma AdvanceIsStep(ts: Clock, s: State, i: nat, ok: bool)
    requires i < |s.tasks|
    ensures Apply(ts, s, Advance(i, ok)) == Step(s, i, ok)
  {}

  /** What the gate leaves of the statuses. */
  lemma HandledRows(rates: Rates, tb: Tables, id: TxId, transfer: Transfer, create: bool, calls: Calls)
    ensures var rows, after := Rows(tb.records), Handled(rates, tb, id, transfer, create, calls);
            var stored := if id in rows || !create then rows else rows[id := Row(Initial, NoSignature)];
            var publishes := Publishes(transfer, calls);
            var enters := if id in rows then rows[id].status.Initial? else create;
            Rows(after.records)
            == if enters && publishes && calls.write then stored[id := MarkSubmitted(stored[id])] else stored
  {
    hide Fees.ChargedFee, Fees.NetAmount;
  }

  /** The sequential handler is a run of the lifecycle machine: after the steps of a task that
      starts at its lookup, with the same outcomes, the machine's rows are those of the table
      that `Handle` leaves, and it has counted one entry exactly if `Handle` entered. */
  lemma HandleIsRun(rates: Rates, ts: Clock, s: State, i: nat,
                    tb: Tables, id: TxId, transfer: Transfer, create: bool, calls: Calls)
    requires s.rows == Rows(tb.records) && i < |s.tasks| && s.tasks[i] == Task(id, Lookup)
    ensures var recorded := id in tb.records;
            var publishes := Publishes(transfer, calls);
            var enters := if recorded then tb.records[id].row.status.Initial? else create;
            var t := Continue(ts, s, HandlerRun(i, recorded, create, publishes, calls.write));
            && t.rows == Rows(Handled(rates, tb, id, transfer, create, calls).records)
            && t.entered[id] == s.entered[id] + if enters then 1 else 0
  {
    hide Continue, Step, Handled, Publishes;
    var recorded := id in tb.records;
    var publishes := Publishes(transfer, calls);
    HandlerSteps(ts, s, i, recorded, create, publishes, calls.write);
    FirstSteps(s, i, id, create);
    var t := if recorded then Step(s, i, true) else Step(Step(s, i, true), i, create);
    LastTwoSteps(t, i, id, publishes, calls.write);
    HandledRows(rates, tb, id, transfer, create, calls);
  }
}
