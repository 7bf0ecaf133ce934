/** The message handler and the message service as one goroutine executes them, without
    interference, on one validator's tables; and the transfer query of the REST interface. */
module Messages {
  import opened Wrappers
  import opened Quorum
  import Fees
  import Int64
  import Signatures
  import Text

  datatype Outcome = StillWaiting | Rejected | Counted(majority: bool)

  /** The state after one handler of `m` has run from start to end on its own. */
  function Alone(cfg: Config, s: State, m: TopicMessage): (t: State)
    requires s.handlers == []
    ensures t.handlers == []
  {
    var s1 := Step(cfg, s.(handlers := [Handler(m, Await)]), 0);
    var s2 := Step(cfg, s1, 0);
    var s3 := Step(cfg, s2, 0);
    var s4 := Step(cfg, s3, 0);
    Step(cfg, s4, 0).(handlers := [])
  }

  /** The duplicate check finds the message's row. */
  predicate Stored(cfg: Config, rows: set<Row>, m: TopicMessage) {
    var p := Prepare(cfg, m);
    p.Some? && Exists(rows, m.transferId, p.value.signature.hex, p.value.hash)
  }

  /** The message's row is new, its signature is a member's, and the column is free. */
  predicate Inserts(cfg: Config, rows: set<Row>, m: TopicMessage) {
    && !Stored(cfg, rows, m) && MessageKey(cfg, m).Some?
    && !SignatureTaken(rows, MessageKey(cfg, m).value.signature)
  }

  /** What running a handler on its own amounts to, in terms of the message. */
  lemma AloneEffect(cfg: Config, s: State, m: TopicMessage)
    requires s.handlers == []
    ensures var t := Alone(cfg, s, m);
            var counts := Sane(cfg, s.transfers, m) && (Stored(cfg, s.rows, m) || Inserts(cfg, s.rows, m));
            && t.transfers == s.transfers
            && t.rows == (if counts && Inserts(cfg, s.rows, m) then s.rows + {NewRow(cfg, m)} else s.rows)
            && t.completed == if counts && |RowsOf(t.rows, m.transferId)| >= Threshold(cfg)
                              then s.completed + {m.transferId} else s.completed
  {
    hide Sane, Prepare, VerifySignature, RowsOf, Step;
    var s0 := s.(handlers := [Handler(m, Await)]);
    var s1 := Step(cfg, s0, 0);
    AwaitAlone(cfg, s, m);
    if Sane(cfg, s.transfers, m) {
      LookupAlone(cfg, s, m);
      var s2 := Step(cfg, s1, 0);
      if s2.handlers[0].stage.Insert? {
        InsertAlone(cfg, s, m, s2.handlers[0].stage.row);
        var s3 := Step(cfg, s2, 0);
        CountAlone(cfg, s3, m);
      } else {
        CountAlone(cfg, s2, m);
      }
    } else {
      StillAlone(cfg, s1);
    }
  }

  lemma AwaitAlone(cfg: Config, s: State, m: TopicMessage)
    ensures var t := Step(cfg, s.(handlers := [Handler(m, Await)]), 0);
            t == s.(handlers := [Handler(m, if Sane(cfg, s.transfers, m) then Lookup
                                            else if Visible(s.transfers, m.transferId) then Finished else Await)])
  {}

  /** A handler that has finished, or waits for a transfer, stays where it is. */
  lemma StillAlone(cfg: Config, s: State)
    requires |s.handlers| == 1
    requires || s.handlers[0].stage.Finished?
             || (s.handlers[0].stage.Await? && !Visible(s.transfers, s.handlers[0].m.transferId))
    ensures Step(cfg, s, 0) == s
  {}

  lemma LookupAlone(cfg: Config, s: State, m: TopicMessage)
    ensures var t := Step(cfg, s.(handlers := [Handler(m, Lookup)]), 0);
            t == s.(handlers := [Handler(m, if Stored(cfg, s.rows, m) then Count
                                            else if MessageKey(cfg, m).Some? then Insert(NewRow(cfg, m))
                                            else Finished)])
  {
    hide Prepare, VerifySignature;
  }

  lemma InsertAlone(cfg: Config, s: State, m: TopicMessage, row: Row)
    ensures var t := Step(cfg, s.(handlers := [Handler(m, Insert(row))]), 0);
            t == if SignatureTaken(s.rows, row.signature) then s.(handlers := [Handler(m, Finished)])
                 else s.(rows := s.rows + {row}, handlers := [Handler(m, Count)])
  {}

  lemma CountAlone(cfg: Config, s: State, m: TopicMessage)
    requires s.handlers == [Handler(m, Count)] || s.handlers == [Handler(m, Finished)]
    ensures var t := Step(cfg, Step(cfg, s, 0), 0);
            && t == s.(handlers := [Handler(m, Finished)],
                       completed := if s.handlers[0].stage.Count? && |RowsOf(s.rows, m.transferId)| >= Threshold(cfg)
                                    then s.completed + {m.transferId} else s.completed)
            && Step(cfg, t, 0) == t
  {
    hide RowsOf;
    var majority := s.handlers[0].stage.Count? && |RowsOf(s.rows, m.transferId)| >= Threshold(cfg);
    assert Step(cfg, s, 0) == s.(handlers := [Handler(m, if majority then Complete else Finished)]);
  }

  function NewRow(cfg: Config, m: TopicMessage): Row
    requires MessageKey(cfg, m).Some?
  {
    var k := MessageKey(cfg, m).value;
    Row(k.transferId, k.hash, k.signature, k.signer, m.timestamp)
  }

  /** What processing one message does to the table. */
  lemma RecoveredRow(cfg: Config, before: set<Row>, after: set<Row>, m: TopicMessage)
    requires UniqueSignatures(before)
    requires after == if Inserts(cfg, before, m) then before + {NewRow(cfg, m)} else before
    ensures UniqueSignatures(after) && before <= after
    ensures forall k :: k in RowKeys(after) ==> k in RowKeys(before) || Some(k) == MessageKey(cfg, m)
    ensures MessageKey(cfg, m).Some? ==> SignatureTaken(after, MessageKey(cfg, m).value.signature)
  {
    hide MessageDigest, VerifySignature;
    if MessageKey(cfg, m).Some? {
      var row := NewRow(cfg, m);
      assert RowKey(row) == MessageKey(cfg, m).value;
    }
  }

  lemma TopicKeysGrow(cfg: Config, messages: seq<TopicMessage>, m: TopicMessage)
    ensures TopicKeys(cfg, set x | x in messages) <= TopicKeys(cfg, set x | x in messages + [m])
    ensures MessageKey(cfg, m).Some? ==> MessageKey(cfg, m).value in TopicKeys(cfg, set x | x in messages + [m])
  {
    hide MessageKey;
    assert m in messages + [m];
  }

  datatype TransferData = TransferData(
    recipient: string,
    routerAddress: string,
    amount: string,
    nativeAsset: string,
    signatures: seq<string>,
    majority: bool)

  /** One validator's tables and the operations the handler performs on them. */
  class Service {
    const cfg: Config
    var transfers: map<TransferId, StoredTransfer>
    var rows: set<Row>
    var completed: set<TransferId>

    constructor (cfg: Config, transfers: map<TransferId, StoredTransfer>, rows: set<Row>)
      ensures this.cfg == cfg && this.transfers == transfers && this.rows == rows && completed == {}
    {
      this.cfg, this.transfers, this.rows, this.completed := cfg, transfers, rows, {};
    }

    function Tables(): State
      reads this
    {
      State(transfers, rows, [], completed)
    }

    /** Stores a verified signature, unless it is stored already. A signature found by the
        duplicate check is no error; losing against the unique column is. */
    method ProcessSignature(m: TopicMessage) returns (r: Result<(), string>)
      modifies this`rows
      ensures r.Success? <==> Stored(cfg, old(rows), m) || Inserts(cfg, old(rows), m)
      ensures rows == if Inserts(cfg, old(rows), m) then old(rows) + {NewRow(cfg, m)} else old(rows)
      ensures var amount, d := Text.ParseBig(m.amount), Signatures.DecodeSignature(m.signature);
              if amount.None? || d.Failure? then rows == old(rows) && r.Failure?
              else
                var f := AuthFields(m.transferId, m.routerAddress, m.wrappedAsset, m.receiver, amount.value);
                var hash := cfg.digest(f);
                var signer := cfg.recover(hash, d.value.bytes);
                var duplicate := exists row :: row in old(rows) && row.transferId == m.transferId
                                               && row.signature == d.value.hex && row.hash == hash;
                if && signer.Some? && (exists k :: k in cfg.members && Identity(k) == Identity(signer.value))
                   && forall row :: row in old(rows) ==> row.signature != d.value.hex
                then rows == old(rows) + {Row(m.transferId, hash, d.value.hex, signer.value, m.timestamp)} && r.Success?
                else rows == old(rows) && (r.Success? <==> duplicate)
    {
      var prepared := Prepare(cfg, m);
      if prepared.None? {
        return Failure("authorisation message or signature malformed");
      }
      var p := prepared.value;
      if Exists(rows, m.transferId, p.signature.hex, p.hash) {
        return Success(());
      }
      var address := VerifySignature(cfg, p.hash, p.signature.bytes);
      if address.None? {
        return Failure("signer is not signatures member");
      }
      if SignatureTaken(rows, p.signature.hex) {
        return Failure("duplicate signature");
      }
      rows := rows + {Row(m.transferId, p.hash, p.signature.hex, address.value, m.timestamp)};
      return Success(());
    }

    /** The recovery pass: every fetched message is processed without the sanity check. It
        leaves a table the handlers may start from: signatures stay unique, every row is an
        earlier one or a recovered message's, and every member's message is stored unless
        its signature was taken. */
    method TopicMessagesRecovery(messages: seq<TopicMessage>)
      requires UniqueSignatures(rows)
      modifies this`rows
      ensures UniqueSignatures(rows) && old(rows) <= rows
      ensures RowKeys(rows) <= RowKeys(old(rows)) + TopicKeys(cfg, set m | m in messages)
      ensures forall m :: m in messages && MessageKey(cfg, m).Some? ==>
                SignatureTaken(rows, MessageKey(cfg, m).value.signature)
    {
      hide MessageKey, Prepare;
      for i := 0 to |messages|
        invariant UniqueSignatures(rows) && old(rows) <= rows
        invariant RowKeys(rows) <= RowKeys(old(rows)) + TopicKeys(cfg, set m | m in messages[..i])
        invariant forall m :: m in messages[..i] && MessageKey(cfg, m).Some? ==>
                    SignatureTaken(rows, MessageKey(cfg, m).value.signature)
      {
        ghost var before := rows;
        var processed := ProcessSignature(messages[i]);
        RecoveredRow(cfg, before, rows, messages[i]);
        TopicKeysGrow(cfg, messages[..i], messages[i]);
        assert messages[..i + 1] == messages[..i] + [messages[i]];
      }
      assert messages[..|messages|] == messages;
    }

    /** Reports a majority exactly when more than half as many rows as members are stored. */
    method CheckMajority(id: TransferId) returns (majorityReached: bool)
      ensures majorityReached <==> 2 * |RowsOf(rows, id)| > |cfg.members|
    {
      var signatureMessages := RowsOf(rows, id);
      var requiredSigCount := |cfg.members| / 2 + 1;
      majorityReached := |signatureMessages| >= requiredSigCount;
    }

    /** Handles one message from start to end: the tables end up as in an undisturbed run of
        the step machine. */
    method HandleSignatureMessage(m: TopicMessage) returns (outcome: Outcome)
      modifies this
      ensures Tables() == Alone(cfg, old(Tables()), m)
      ensures outcome.StillWaiting? <==> !(m.transferId in transfers && transfers[m.transferId].feeTxId != "")
      ensures outcome == Counted(true) ==> m.transferId in completed
    {
      AloneEffect(cfg, Tables(), m);
      if !Visible(transfers, m.transferId) {
        return StillWaiting;
      }
      var valid := SanityCheck(cfg, transfers[m.transferId], m);
      if valid != Success(true) {
        return Rejected;
      }
      var processed := ProcessSignature(m);
      if processed.Failure? {
        return Rejected;
      }
      var majorityReached := CheckMajority(m.transferId);
      if majorityReached {
        completed := completed + {m.transferId};
      }
      outcome := Counted(majorityReached);
    }

    /** The signatures of a transfer and whether they are a majority, by the same count as the
        handler's. Unlike the handler, the query serves a transfer with a failed fee row. */
    method GetTransferData(id: TransferId) returns (r: Result<TransferData, string>)
      ensures r == Failure("not found") <==> id !in transfers || transfers[id].feeAmount == ""
      ensures r.Failure? <==>
                || id !in transfers
                || Fees.ExpectedAmount(transfers[id].amount, transfers[id].feeAmount).None?
      ensures r.Success? ==>
                && Fees.ExpectedAmount(transfers[id].amount, transfers[id].feeAmount) == Some(r.value.amount)
                && r.value.recipient == transfers[id].receiver
                && r.value.routerAddress == transfers[id].routerAddress
                && r.value.nativeAsset == transfers[id].nativeAsset
                && |r.value.signatures| == |RowsOf(rows, id)|
                && (forall signature :: signature in r.value.signatures <==>
                      exists row :: row in RowsOf(rows, id) && row.signature == signature)
                && (r.value.majority <==> 2 * |RowsOf(rows, id)| > |cfg.members|)
    {
      if id !in transfers || transfers[id].feeAmount == "" {
        return Failure("not found");
      }
      var t := transfers[id];
      var signedAmount := Fees.ExpectedAmount(t.amount, t.feeAmount);
      if signedAmount.None? {
        return Failure("amount does not parse");
      }
      var signatures: seq<string> := [];
      var messages := RowsOf(rows, id);
      var left := messages;
      while left != {}
        invariant left <= messages
        invariant |signatures| == |messages| - |left|
        invariant forall signature :: signature in signatures <==>
                    exists row :: row in messages - left && row.signature == signature
        decreases |left|
      {
        var m :| m in left;
        ghost var before := messages - left;
        left := left - {m};
        signatures := signatures + [m.signature];
        assert messages - left == before + {m};
      }
      assert messages - left == messages;
      r := Success(TransferData(t.receiver, t.routerAddress, signedAmount.value, t.nativeAsset, signatures,
                                |messages| >= |cfg.members| / 2 + 1));
    }
  }

  // ----- what a validator signs is what every other one accepts -----

  /** Signs a stored transfer: computes the net amount from the transfer's text and builds the
      topic message. `sign` stands for the validator's key; it may fail. */
  method AuthoriseTransfer(cfg: Config, percentage: Fees.Percentage, n: Fees.Count, id: TransferId, t: StoredTransfer,
                           wrappedAsset: string, sign: Digest -> Option<string>)
    returns (r: Result<TopicMessage, string>)
    ensures r.Success? ==>
              && Fees.SignedAmount(t.amount, percentage, n) == Some(r.value.amount)
              && r.value == TopicMessage(id, t.routerAddress, t.receiver, r.value.amount, wrappedAsset,
                                         r.value.signature, 0)
              && MessageDigest(cfg, r.value).Some? && sign(MessageDigest(cfg, r.value).value) == Some(r.value.signature)
              && Text.ParseInt(r.value.amount).Some?
              && var a := Text.ParseInt(r.value.amount).value;
                 sign(cfg.digest(AuthFields(id, t.routerAddress, wrappedAsset, t.receiver, a)))
                 == Some(r.value.signature)
    ensures r.Failure? <==>
              var s := Fees.SignedAmount(t.amount, percentage, n);
              || s.None?
              || var a := Text.ParseInt(s.value);
                 a.Some? && sign(cfg.digest(AuthFields(id, t.routerAddress, wrappedAsset, t.receiver, a.value))).None?
  {
    hide Fees.CalculateFee, Fees.ValidAmount;
    var intAmount := Text.ParseInt(t.amount);
    if intAmount.None? {
      return Failure("amount does not parse");
    }
    var split := Fees.CalculateFee(intAmount.value, percentage);
    var remainder := split.remainder;
    var validFee := Fees.ValidAmount(split.fee, n);
    if validFee != split.fee {
      remainder := Int64.Wrap(remainder + Int64.Wrap(split.fee - validFee));
    }
    assert remainder == Fees.NetAmount(intAmount.value, percentage, n);
    var wrappedAmount := Text.FormatInt(remainder);
    Text.ParseFormat(remainder);
    var hash := cfg.digest(AuthFields(id, t.routerAddress, wrappedAsset, t.receiver, remainder));
    var signature := sign(hash);
    if signature.None? {
      return Failure("signing failed");
    }
    r := Success(TopicMessage(id, t.routerAddress, t.receiver, wrappedAmount, wrappedAsset, signature.value, 0));
  }

  /** What one validator signs for a transfer passes the sanity check of every validator with
      the same fee percentage and member count that stored the same transfer and its fee
      row, and carries the digest that validator expects: for every amount text, overflow
      included. */
  lemma SignedMessageIsSane(cfg: Config, percentage: Fees.Percentage, n: Fees.Count, id: TransferId, m: TopicMessage,
                            transfers: map<TransferId, StoredTransfer>)
    requires Visible(transfers, id)
    requires Fees.FeeRowAmount(transfers[id].amount, percentage, n) == Some(transfers[id].feeAmount)
    requires Fees.SignedAmount(transfers[id].amount, percentage, n) == Some(m.amount)
    requires cfg.toWrapped(transfers[id].nativeAsset) == Some(m.wrappedAsset)
    requires m.transferId == id
    requires m.routerAddress == transfers[id].routerAddress && m.receiver == transfers[id].receiver
    ensures Sane(cfg, transfers, m)
    ensures MessageDigest(cfg, m).Some? && MessageDigest(cfg, m) == ExpectedDigest(cfg, id, transfers[id])
  {
    hide Fees.NetAmount, Fees.ChargedFee;
    var amount := transfers[id].amount;
    Fees.AmountAgreement(amount, percentage, n);
    Text.ParseFormat(Fees.NetAmount(Text.ParseInt(amount).value, percentage, n));
  }

  // ----- the sequential handler is one of the machine's runs -----

  /** Running a handler on its own is the run that delivers the message and then advances
      that one handler, followed by forgetting it. */
  lemma AloneIsRun(cfg: Config, s: State, m: TopicMessage)
    requires s.handlers == []
    ensures Run(cfg, s, [Deliver(m), Advance(0), Advance(0), Advance(0), Advance(0), Advance(0)]).(handlers := [])
            == Alone(cfg, s, m)
  {
    hide Step;
    var a := Advance(0);
    var r1 := [Deliver(m)];
    assert [] + [Deliver(m)] == r1;
    RunExtend(cfg, s, [], Deliver(m));
    assert s.handlers + [Handler(m, Await)] == [Handler(m, Await)];
    var r2 := r1 + [a];
    var r3 := r2 + [a];
    var r4 := r3 + [a];
    var r5 := r4 + [a];
    RunExtend(cfg, s, r1, a);
    RunExtend(cfg, s, r2, a);
    RunExtend(cfg, s, r3, a);
    RunExtend(cfg, s, r4, a);
    RunExtend(cfg, s, r5, a);
    assert r5 + [a] == [Deliver(m), a, a, a, a, a];
  }

  lemma RunExtend(cfg: Config, s: State, before: seq<Action>, a: Action)
    ensures Run(cfg, s, before + [a]) == Apply(cfg, Run(cfg, s, before), a)
  {
    assert (before + [a])[..|before|] == before;
  }

  // ----- what a failed call leaves behind -----

  /** After a failed call the completing write can be missing although all handlers have
      finished and a majority is stored: the inserter of the last row fails to count. The
      next delivery of the same message then finds its row, counts, and completes. */
  lemma LostCompletion(cfg: Config, s0: State, m: TopicMessage)
    requires s0.handlers == [] && m.transferId !in s0.completed
    requires Sane(cfg, s0.transfers, m) && Inserts(cfg, s0.rows, m)
    requires |RowsOf(s0.rows, m.transferId)| + 1 == Threshold(cfg)
    ensures var s := Run(cfg, s0, [Deliver(m), Advance(0), Advance(0), Advance(0), Fault(0)]);
            && AllFinished(s) && AcceptedFor(cfg, s.transfers, Delivered(s), m.transferId)
            && |RowsOf(s.rows, m.transferId)| == Threshold(cfg) && m.transferId !in s.completed
            && m.transferId in Alone(cfg, s.(handlers := []), m).completed
  {
    hide Sane, Inserts, Stored, Alone, Run, RowsOf, NewRow;
    FaultAfterInsert(cfg, s0, m);
    var s, row := Run(cfg, s0, [Deliver(m), Advance(0), Advance(0), Advance(0), Fault(0)]), NewRow(cfg, m);
    assert s.handlers[0].m in Delivered(s);
    StoredNow(cfg, s0.rows, m);
    OneMoreRow(s0.rows, row, m.transferId);
    AloneEffect(cfg, s.(handlers := []), m);
  }

  lemma FaultAfterInsert(cfg: Config, s0: State, m: TopicMessage)
    requires s0.handlers == [] && Sane(cfg, s0.transfers, m) && Inserts(cfg, s0.rows, m)
    ensures Run(cfg, s0, [Deliver(m), Advance(0), Advance(0), Advance(0), Fault(0)])
            == s0.(rows := s0.rows + {NewRow(cfg, m)}, handlers := [Handler(m, Finished)])
    ensures MessageKey(cfg, m).Some?
  {
    hide Sane, Prepare, VerifySignature, Step, Run, Stored;
    var a := Advance(0);
    assert Run(cfg, s0, []) == s0 by { RunNone(cfg, s0); }
    assert s0.handlers + [Handler(m, Await)] == [Handler(m, Await)];
    RunExtend(cfg, s0, [], Deliver(m));
    RunExtend(cfg, s0, [Deliver(m)], a);
    RunExtend(cfg, s0, [Deliver(m), a], a);
    RunExtend(cfg, s0, [Deliver(m), a, a], a);
    RunExtend(cfg, s0, [Deliver(m), a, a, a], Fault(0));
    assert && [] + [Deliver(m)] == [Deliver(m)] && [Deliver(m)] + [a] == [Deliver(m), a]
           && [Deliver(m), a] + [a] == [Deliver(m), a, a] && [Deliver(m), a, a] + [a] == [Deliver(m), a, a, a]
           && [Deliver(m), a, a, a] + [Fault(0)] == [Deliver(m), a, a, a, Fault(0)];
    AwaitAlone(cfg, s0, m);
    LookupAlone(cfg, s0, m);
    InsertAlone(cfg, s0, m, NewRow(cfg, m));
  }

  lemma RunNone(cfg: Config, s: State)
    ensures Run(cfg, s, []) == s
  {}

  lemma OneMoreRow(rows: set<Row>, row: Row, id: TransferId)
    requires row !in rows && row.transferId == id
    ensures |RowsOf(rows + {row}, id)| == |RowsOf(rows, id)| + 1
  {
    assert RowsOf(rows + {row}, id) == RowsOf(rows, id) + {row};
  }

  lemma StoredNow(cfg: Config, rows: set<Row>, m: TopicMessage)
    requires Inserts(cfg, rows, m)
    ensures Stored(cfg, rows + {NewRow(cfg, m)}, m) && NewRow(cfg, m) !in rows
    ensures NewRow(cfg, m).transferId == m.transferId
  {
    hide MessageDigest, VerifySignature;
  }

  // ----- why one signature per digest is needed -----

  /** A 65-byte signature in the form the signer produces, with a recovery bit. */
  predicate Plain(sig: seq<Signatures.byte>) { |sig| == 65 && (sig[64] == 0 || sig[64] == 1) }

  function Sample(sig: seq<Signatures.byte>): TopicMessage {
    TopicMessage("id", "router", "receiver", "5", "asset", Signatures.EncodeToString(sig), 0)
  }

  const SAMPLE_TRANSFERS: map<TransferId, StoredTransfer> :=
    map["id" := StoredTransfer("receiver", "router", "HBAR", "5", "0", "fee")]

  /** Three members, and two signatures that both recover to the first of them; no other
      signature recovers at all. */
  function SampleConfig(x: seq<Signatures.byte>, y: seq<Signatures.byte>): Config {
    Config(["a", "b", "c"], _ => Some("asset"), f => "digest",
           (h, sig) => if sig == x || sig == y then Some("a") else None)
  }

  function StoredText(sig: seq<Signatures.byte>): string
    requires Plain(sig)
  {
    Signatures.EncodeToString(sig[64 := Signatures.EthV(sig[64])])
  }

  lemma SampleSane(x: seq<Signatures.byte>, y: seq<Signatures.byte>, sig: seq<Signatures.byte>)
    ensures Sane(SampleConfig(x, y), SAMPLE_TRANSFERS, Sample(sig))
  {
    Text.ParseFormat(5);
    Text.ParseFormat(0);
    assert Text.FormatInt(5) == "5" && Text.FormatInt(0) == "0";
  }

  lemma SamplePrepared(x: seq<Signatures.byte>, y: seq<Signatures.byte>, sig: seq<Signatures.byte>)
    requires Plain(sig)
    ensures Prepare(SampleConfig(x, y), Sample(sig))
            == Some(Prepared("digest", Signatures.Decoded(sig, StoredText(sig))))
    ensures Sample(sig).transferId == "id"
    ensures sig == x || sig == y ==>
              MessageKey(SampleConfig(x, y), Sample(sig)) == Some(Key("id", "digest", StoredText(sig), "a"))
  {
    Signatures.DecodeEncode(sig);
    assert sig[64 := Signatures.RawV(sig[64])] == sig;
    Text.ParseFormat(5);
    assert Text.FormatInt(5) == "5";
    assert "a" in SampleConfig(x, y).members;
  }

  lemma StoredTextsDiffer(x: seq<Signatures.byte>, y: seq<Signatures.byte>)
    requires Plain(x) && Plain(y) && x[..64] != y[..64]
    ensures StoredText(x) != StoredText(y)
  {
    var a, b := x[64 := Signatures.EthV(x[64])], y[64 := Signatures.EthV(y[64])];
    Signatures.DecodeEncode(a);
    Signatures.DecodeEncode(b);
    assert a[..64] == x[..64] && b[..64] == y[..64];
  }

  /** Without the hypothesis of one signature per digest the majority can be a single member:
      rows are unique by signature and not by signer, so any two signatures of one of three
      members that differ in R or S, such as (R, S) and (R, -S) of one key, complete a
      transfer. */
  lemma TwoSignaturesOneSigner(x: seq<Signatures.byte>, y: seq<Signatures.byte>)
    requires Plain(x) && Plain(y) && x[..64] != y[..64]
    ensures var cfg := SampleConfig(x, y);
            var s := Alone(cfg, Alone(cfg, State(SAMPLE_TRANSFERS, {}, [], {}), Sample(x)), Sample(y));
            "id" in s.completed && |Signers(s.rows, "id")| == 1 && |cfg.members| == 3
  {
    hide Sample, Sane, Prepare, MessageKey, Alone, StoredText;
    var cfg, s0 := SampleConfig(x, y), State(SAMPLE_TRANSFERS, {}, [], {});
    var s1 := Alone(cfg, s0, Sample(x));
    var s := Alone(cfg, s1, Sample(y));
    SampleSane(x, y, x);
    SampleSane(x, y, y);
    SamplePrepared(x, y, x);
    SamplePrepared(x, y, y);
    StoredTextsDiffer(x, y);
    AloneEffect(cfg, s0, Sample(x));
    var r1, r2 := NewRow(cfg, Sample(x)), NewRow(cfg, Sample(y));
    assert s1.rows == {r1};
    AloneEffect(cfg, s1, Sample(y));
    assert s.rows == {r1, r2};
    assert RowsOf(s.rows, "id") == {r1, r2};
    assert Signers(s.rows, "id") == {Identity("a")} by {
      assert r1 in RowsOf(s.rows, "id");
    }
  }
}
