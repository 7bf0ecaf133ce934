/** Signature collection at one validator. Every topic message is handled by its own
    goroutine, so the handler is a machine whose steps are single database calls and whose
    runs interleave the steps of any number of handlers in any order. */
module Quorum {
  import opened Wrappers
  import opened Sets
  import Int64
  import Text
  import Fees
  import Signatures

  type TransferId = string
  type Digest = string
  type Address = string

  datatype TopicMessage = TopicMessage(
    transferId: TransferId,
    routerAddress: string,
    receiver: string,
    amount: string,
    wrappedAsset: string,
    signature: string,
    timestamp: int)

  /** The fields of a transfer row and of its fee row that signatures are checked against;
      the fee fields are empty while there is no fee row, and a failed fee row has no
      transaction id. */
  datatype StoredTransfer = StoredTransfer(
    receiver: string,
    routerAddress: string,
    nativeAsset: string,
    amount: string,
    feeAmount: string,
    feeTxId: string)

  /** The row that a message handler waits for: a transfer with a fee transaction. */
  predicate Visible(transfers: map<TransferId, StoredTransfer>, id: TransferId) {
    id in transfers && transfers[id].feeTxId != ""
  }

  datatype AuthFields = AuthFields(
    transferId: TransferId,
    routerAddress: string,
    wrappedAsset: string,
    receiver: string,
    amount: int)

  /** A row of the message table; the signature column is unique. */
  datatype Row = Row(transferId: TransferId, hash: Digest, signature: string, signer: Address, timestamp: int)

  /** A row without the timestamp of the delivery that happened to insert it. */
  datatype Key = Key(transferId: TransferId, hash: Digest, signature: string, signer: Address)

  /** The member list of the contract and the functions this model does not look into: the
      asset mapping, the authorisation digest and public-key recovery. */
  datatype Config = Config(
    members: seq<Address>,
    toWrapped: string -> Option<string>,
    digest: AuthFields -> Digest,
    recover: (Digest, seq<Signatures.byte>) -> Option<Address>)

  // ----- what the handler computes from what it read -----

  /** Compares a message's metadata with the stored transfer. */
  function SanityCheck(cfg: Config, t: StoredTransfer, m: TopicMessage): Result<bool, string> {
    match (Fees.ExpectedAmount(t.amount, t.feeAmount), cfg.toWrapped(t.nativeAsset))
    case (Some(signedAmount), Some(wrappedAsset)) =>
      Success(
        && m.receiver == t.receiver
        && m.routerAddress == t.routerAddress
        && m.amount == signedAmount
        && m.wrappedAsset == wrappedAsset)
    case (None, _) => Failure("amount does not parse")
    case (_, None) => Failure("asset not supported")
  }

  predicate Sane(cfg: Config, transfers: map<TransferId, StoredTransfer>, m: TopicMessage) {
    Visible(transfers, m.transferId) && SanityCheck(cfg, transfers[m.transferId], m) == Success(true)
  }

  /** The digest a message claims to sign, from its own fields. */
  function MessageDigest(cfg: Config, m: TopicMessage): Option<Digest> {
    match Text.ParseBig(m.amount)
    case None => None
    case Some(amount) => Some(cfg.digest(AuthFields(m.transferId, m.routerAddress, m.wrappedAsset, m.receiver, amount)))
  }

  /** The digest a transfer must be authorised with, from its stored fields. */
  function ExpectedDigest(cfg: Config, id: TransferId, t: StoredTransfer): Option<Digest> {
    match (Fees.ExpectedAmount(t.amount, t.feeAmount), cfg.toWrapped(t.nativeAsset))
    case (Some(signedAmount), Some(wrappedAsset)) =>
      MessageDigest(cfg, TopicMessage(id, t.routerAddress, t.receiver, signedAmount, wrappedAsset, "", 0))
    case _ => None
  }

  /** The authorisation digest is taken over exactly five fields: under a digest function without
      collisions, two messages share a digest if and only if they agree in all of them. */
  lemma DigestFieldsIff(cfg: Config, m: TopicMessage, o: TopicMessage)
    requires forall f, g :: cfg.digest(f) == cfg.digest(g) ==> f == g
    requires MessageDigest(cfg, m).Some? && MessageDigest(cfg, o).Some?
    ensures MessageDigest(cfg, m) == MessageDigest(cfg, o)
            <==> && m.transferId == o.transferId && m.routerAddress == o.routerAddress
                 && m.wrappedAsset == o.wrappedAsset && m.receiver == o.receiver
                 && Text.ParseBig(m.amount) == Text.ParseBig(o.amount)
    ensures Text.ParseBig(m.amount).Some?
    ensures var amount := Text.ParseBig(m.amount).value;
            MessageDigest(cfg, m).value
            == cfg.digest(AuthFields(m.transferId, m.routerAddress, m.wrappedAsset, m.receiver, amount))
  {}

  /** A message has a digest exactly if its amount is a number, and a transfer expects the digest
      over its own fields, its mapped asset, and its amount less its fee. */
  lemma ExpectedDigestIs(cfg: Config, id: TransferId, t: StoredTransfer)
    ensures var a, f, w := Text.ParseInt(t.amount), Text.ParseInt(t.feeAmount), cfg.toWrapped(t.nativeAsset);
            ExpectedDigest(cfg, id, t)
            == if a.Some? && f.Some? && w.Some?
               then Some(cfg.digest(AuthFields(id, t.routerAddress, w.value, t.receiver,
                                               Int64.Wrap((a.value as int) - f.value))))
               else None
    ensures forall m: TopicMessage :: MessageDigest(cfg, m).Some? <==> Text.ParseBig(m.amount).Some?
  {
    hide Text.FormatInt, Text.ParseBig, Int64.Wrap;
    var a, f := Text.ParseInt(t.amount), Text.ParseInt(t.feeAmount);
    if a.Some? && f.Some? { Text.ParseFormat(Int64.Wrap((a.value as int) - f.value)); }
  }

  /** Addresses are compared ignoring letter case. */
  function Identity(a: Address): string { Signatures.Lower(a) }

  /** The sanity check passes exactly for a stored transfer with a fee transaction whose receiver,
      router, mapped asset, and amount less fee, in decimal, are the message's. */
  lemma SaneIff(cfg: Config, transfers: map<TransferId, StoredTransfer>, m: TopicMessage)
    ensures Sane(cfg, transfers, m)
            <==> && m.transferId in transfers
                 && var t := transfers[m.transferId];
                    && t.feeTxId != "" && Text.ParseInt(t.amount).Some? && Text.ParseInt(t.feeAmount).Some?
                    && m.receiver == t.receiver && m.routerAddress == t.routerAddress
                    && cfg.toWrapped(t.nativeAsset) == Some(m.wrappedAsset)
                    && m.amount == Text.FormatInt(Int64.Wrap(
                                     (Text.ParseInt(t.amount).value as int) - Text.ParseInt(t.feeAmount).value))
  {
    hide Text.FormatInt, Text.ParseBig, Int64.Wrap;
  }

  lemma IdentityIff(a: Address, b: Address)
    ensures Identity(a) == Identity(b)
            <==> |a| == |b| && forall i :: 0 <= i < |a| ==>
                   || a[i] == b[i]
                   || ('A' <= a[i] <= 'Z' && b[i] as int == a[i] as int + 32)
                   || ('A' <= b[i] <= 'Z' && a[i] as int == b[i] as int + 32)
  {
    if Identity(a) == Identity(b) {
      assert forall i :: 0 <= i < |a| ==> Identity(a)[i] == Identity(b)[i];
    }
  }

  predicate IsMember(cfg: Config, a: Address) {
    exists k :: k in cfg.members && Identity(k) == Identity(a)
  }

  /** The member that signed, if the signature recovers to one. */
  function VerifySignature(cfg: Config, hash: Digest, signature: seq<Signatures.byte>): Option<Address> {
    match cfg.recover(hash, signature)
    case Some(a) => if IsMember(cfg, a) then Some(a) else None
    case None => None
  }

  datatype Prepared = Prepared(hash: Digest, signature: Signatures.Decoded)

  function Prepare(cfg: Config, m: TopicMessage): Option<Prepared> {
    match (MessageDigest(cfg, m), Signatures.DecodeSignature(m.signature))
    case (Some(hash), Success(signature)) => Some(Prepared(hash, signature))
    case _ => None
  }

  /** The row a message leads to, if its signature is a member's. */
  function MessageKey(cfg: Config, m: TopicMessage): Option<Key> {
    match Prepare(cfg, m)
    case None => None
    case Some(p) =>
      match VerifySignature(cfg, p.hash, p.signature.bytes)
      case None => None
      case Some(a) => Some(Key(m.transferId, p.hash, p.signature.hex, a))
  }

  predicate Accepted(cfg: Config, transfers: map<TransferId, StoredTransfer>, m: TopicMessage) {
    Sane(cfg, transfers, m) && MessageKey(cfg, m).Some?
  }

  /** The number of signatures that is more than half of n. */
  function Majority(n: nat): nat { n / 2 + 1 }

  function Threshold(cfg: Config): nat { Majority(|cfg.members|) }

  // ----- the message table -----

  function RowKey(r: Row): Key { Key(r.transferId, r.hash, r.signature, r.signer) }

  function RowsOf(rows: set<Row>, id: TransferId): set<Row> {
    set r | r in rows && r.transferId == id
  }

  function RowKeys(rows: set<Row>): set<Key> { set r | r in rows :: RowKey(r) }

  predicate Exists(rows: set<Row>, id: TransferId, signature: string, hash: Digest) {
    exists r :: r in rows && r.transferId == id && r.signature == signature && r.hash == hash
  }

  predicate SignatureTaken(rows: set<Row>, signature: string) {
    exists r :: r in rows && r.signature == signature
  }

  // ----- the machine -----

  /** Where a handler stands; each stage before `Finished` is one database call. */
  datatype Stage = Await | Lookup | Insert(row: Row) | Count | Complete | Finished

  datatype Handler = Handler(m: TopicMessage, stage: Stage)

  /** `completed` collects the transfers for which the completing write has been made. */
  datatype State = State(
    transfers: map<TransferId, StoredTransfer>,
    rows: set<Row>,
    handlers: seq<Handler>,
    completed: set<TransferId>)

  datatype Action =
    | Store(id: TransferId, t: StoredTransfer)   // the transfer, or its fee row, is stored
    | Deliver(m: TopicMessage)                   // the watcher starts a handler, any number of times
    | Advance(i: nat)                            // one step of one handler
    | Fault(i: nat)                              // that handler's database call fails

  function Goto(s: State, i: nat, stage: Stage): State
    requires i < |s.handlers|
  {
    s.(handlers := s.handlers[i := s.handlers[i].(stage := stage)])
  }

  function Step(cfg: Config, s: State, i: nat): (t: State)
    requires i < |s.handlers|
    ensures |t.handlers| == |s.handlers| && t.handlers[i].m == s.handlers[i].m
  {
    var m := s.handlers[i].m;
    match s.handlers[i].stage
    case Await =>
      if !Visible(s.transfers, m.transferId) then s
      else if Sane(cfg, s.transfers, m) then Goto(s, i, Lookup) else Goto(s, i, Finished)
    case Lookup => (
      match Prepare(cfg, m)
      case None => Goto(s, i, Finished)
      case Some(p) =>
        // an already stored signature ends the processing without an error, so counting follows
        if Exists(s.rows, m.transferId, p.signature.hex, p.hash) then Goto(s, i, Count)
        else
          match VerifySignature(cfg, p.hash, p.signature.bytes)
          case None => Goto(s, i, Finished)
          case Some(a) => Goto(s, i, Insert(Row(m.transferId, p.hash, p.signature.hex, a, m.timestamp))))
    case Insert(row) =>
      if SignatureTaken(s.rows, row.signature) then Goto(s, i, Finished)
      else Goto(s, i, Count).(rows := s.rows + {row})
    case Count =>
      if |RowsOf(s.rows, m.transferId)| >= Threshold(cfg) then Goto(s, i, Complete) else Goto(s, i, Finished)
    case Complete => Goto(s, i, Finished).(completed := s.completed + {m.transferId})
    case Finished => s
  }

  function Apply(cfg: Config, s: State, a: Action): State {
    match a
    case Store(id, t) => if Visible(s.transfers, id) then s else s.(transfers := s.transfers[id := t])
    case Deliver(m) => s.(handlers := s.handlers + [Handler(m, Await)])
    case Advance(i) => if i < |s.handlers| then Step(cfg, s, i) else s
    case Fault(i) => if i < |s.handlers| then Goto(s, i, Finished) else s
  }

  function Run(cfg: Config, s: State, actions: seq<Action>): State
    decreases |actions|
  {
    if actions == [] then s
    else Apply(cfg, Run(cfg, s, actions[..|actions| - 1]), actions[|actions| - 1])
  }

  predicate AllFinished(s: State) {
    forall i :: 0 <= i < |s.handlers| ==> s.handlers[i].stage.Finished?
  }

  function Delivered(s: State): set<TopicMessage> {
    set i | 0 <= i < |s.handlers| :: s.handlers[i].m
  }

  // ----- hypotheses -----

  /** What the messages of a topic would store; rows of earlier runs come from it as well. */
  function TopicKeys(cfg: Config, topic: set<TopicMessage>): set<Key> {
    set m | m in topic && MessageKey(cfg, m).Some? :: MessageKey(cfg, m).value
  }

  /** On this topic a signature recovers to a member for one digest of one transfer. */
  ghost predicate OneDigestPerSignature(keys: set<Key>) {
    forall k, l :: k in keys && l in keys && k.signature == l.signature ==> k == l
  }

  /** Each member produces one signature per digest (section 3.2 of RFC 6979). */
  ghost predicate OneSignaturePerDigest(keys: set<Key>) {
    forall k, l :: k in keys && l in keys && k.hash == l.hash && Identity(k.signer) == Identity(l.signer)
      ==> k.signature == l.signature
  }

  /** Each member signs at most one digest of one transfer. */
  ghost predicate OneDigestPerTransfer(keys: set<Key>, id: TransferId) {
    forall k, l :: k in keys && l in keys && k.transferId == l.transferId == id ==>
      Identity(k.signer) == Identity(l.signer) ==> k.hash == l.hash
  }

  ghost predicate UniqueSignatures(rows: set<Row>) {
    forall r, q :: r in rows && q in rows && r.signature == q.signature ==> r == q
  }

  /** The state a validator starts its handlers in: rows of earlier runs and of the recovery
      pass, which stored messages of the same topic without the sanity check. */
  ghost predicate Initial(cfg: Config, topic: set<TopicMessage>, s: State) {
    && s.handlers == [] && s.completed == {}
    && UniqueSignatures(s.rows)
    && RowKeys(s.rows) <= TopicKeys(cfg, topic)
  }

  /** Every delivered message was published on the topic. */
  predicate FromTopic(topic: set<TopicMessage>, actions: seq<Action>) {
    forall i :: 0 <= i < |actions| && actions[i].Deliver? ==> actions[i].m in topic
  }

  /** All rows of a transfer carry the digest of the transfer as stored. */
  predicate ProperDigests(cfg: Config, transfers: map<TransferId, StoredTransfer>, rows: set<Row>, id: TransferId) {
    forall r :: r in RowsOf(rows, id) ==>
      id in transfers && ExpectedDigest(cfg, id, transfers[id]) == Some(r.hash)
  }

  // ----- the safety invariant -----

  ghost predicate HandlerSafe(cfg: Config, topic: set<TopicMessage>, s: State, h: Handler) {
    && h.m in topic
    && (match h.stage
        case Await => true
        case Lookup => Sane(cfg, s.transfers, h.m)
        case Insert(row) => Accepted(cfg, s.transfers, h.m) && MessageKey(cfg, h.m) == Some(RowKey(row))
        case Count => Accepted(cfg, s.transfers, h.m)
        case Complete => Accepted(cfg, s.transfers, h.m) && |RowsOf(s.rows, h.m.transferId)| >= Threshold(cfg)
        case Finished => true)
  }

  /** Once its fee row is stored, a transfer does not change. */
  ghost predicate TransfersKept(s: State, t: State) {
    forall id :: Visible(s.transfers, id) ==> Visible(t.transfers, id) && t.transfers[id] == s.transfers[id]
  }

  ghost predicate Safe(cfg: Config, topic: set<TopicMessage>, s0: State, s: State) {
    && UniqueSignatures(s.rows)
    && RowKeys(s.rows) <= TopicKeys(cfg, topic)
    && s0.rows <= s.rows
    && TransfersKept(s0, s)
    && (forall r :: r in s.rows && r !in s0.rows ==>
          && Visible(s.transfers, r.transferId)
          && ExpectedDigest(cfg, r.transferId, s.transfers[r.transferId]) == Some(r.hash))
    && (forall i :: 0 <= i < |s.handlers| ==> HandlerSafe(cfg, topic, s, s.handlers[i]))
    && (forall id :: id in s.completed ==> |RowsOf(s.rows, id)| >= Threshold(cfg))
  }

  /** The row of an accepted message carries the digest of the stored transfer. */
  lemma SaneDigest(cfg: Config, transfers: map<TransferId, StoredTransfer>, m: TopicMessage)
    requires Accepted(cfg, transfers, m)
    ensures Visible(transfers, m.transferId)
    ensures MessageKey(cfg, m).value.transferId == m.transferId
    ensures Some(MessageKey(cfg, m).value.hash) == ExpectedDigest(cfg, m.transferId, transfers[m.transferId])
  {}

  /** A stored row that the duplicate check finds is the row of the message. */
  lemma ExistingRow(cfg: Config, topic: set<TopicMessage>, rows: set<Row>, m: TopicMessage, r: Row)
    requires RowKeys(rows) <= TopicKeys(cfg, topic)
    requires r in rows && Prepare(cfg, m).Some?
    requires r.transferId == m.transferId && r.hash == Prepare(cfg, m).value.hash
    requires r.signature == Prepare(cfg, m).value.signature.hex
    ensures MessageKey(cfg, m) == Some(RowKey(r))
  {
    assert RowKey(r) in RowKeys(rows);
    var o :| o in topic && MessageKey(cfg, o) == Some(RowKey(r));
    Signatures.StoredFormIffSameSignature(o.signature, m.signature);
  }

  lemma RowsGrow(rows: set<Row>, more: set<Row>, id: TransferId)
    requires rows <= more
    ensures RowsOf(rows, id) <= RowsOf(more, id) && |RowsOf(rows, id)| <= |RowsOf(more, id)|
  {
    SubsetCard(RowsOf(rows, id), RowsOf(more, id));
  }

  lemma GotoSafe(cfg: Config, topic: set<TopicMessage>, s0: State, s: State, i: nat, stage: Stage)
    requires Safe(cfg, topic, s0, s) && i < |s.handlers|
    requires HandlerSafe(cfg, topic, s, Handler(s.handlers[i].m, stage))
    ensures Safe(cfg, topic, s0, Goto(s, i, stage))
  {
    var t := Goto(s, i, stage);
    forall j | 0 <= j < |t.handlers| ensures HandlerSafe(cfg, topic, t, t.handlers[j]) {
      assert j != i ==> t.handlers[j] == s.handlers[j] && HandlerSafe(cfg, topic, s, s.handlers[j]);
    }
  }

  /** Adding the accepted row of an unused signature keeps the state safe. */
  lemma AddRowSafe(cfg: Config, topic: set<TopicMessage>, s0: State, s: State, m: TopicMessage, row: Row)
    requires Safe(cfg, topic, s0, s) && m in topic
    requires Accepted(cfg, s.transfers, m) && MessageKey(cfg, m) == Some(RowKey(row))
    requires !SignatureTaken(s.rows, row.signature)
    ensures Safe(cfg, topic, s0, s.(rows := s.rows + {row}))
  {
    hide MessageKey, MessageDigest, ExpectedDigest, Sane;
    var t := s.(rows := s.rows + {row});
    assert RowKey(row) in TopicKeys(cfg, topic);
    SaneDigest(cfg, s.transfers, m);
    forall id ensures |RowsOf(s.rows, id)| <= |RowsOf(t.rows, id)| { RowsGrow(s.rows, t.rows, id); }
    forall j | 0 <= j < |t.handlers| ensures HandlerSafe(cfg, topic, t, t.handlers[j]) {
      assert HandlerSafe(cfg, topic, s, s.handlers[j]);
    }
  }

  lemma LookupSafe(cfg: Config, topic: set<TopicMessage>, s0: State, s: State, i: nat)
    requires Safe(cfg, topic, s0, s) && i < |s.handlers| && s.handlers[i].stage.Lookup?
    ensures Safe(cfg, topic, s0, Step(cfg, s, i))
  {
    var m, t := s.handlers[i].m, Step(cfg, s, i);
    assert HandlerSafe(cfg, topic, s, s.handlers[i]);
    var p := Prepare(cfg, m);
    if p.Some? && Exists(s.rows, m.transferId, p.value.signature.hex, p.value.hash) {
      var r :| r in s.rows && r.transferId == m.transferId && r.signature == p.value.signature.hex
               && r.hash == p.value.hash;
      ExistingRow(cfg, topic, s.rows, m, r);
    }
    assert HandlerSafe(cfg, topic, s, t.handlers[i]);
    GotoSafe(cfg, topic, s0, s, i, t.handlers[i].stage);
  }

  lemma InsertSafe(cfg: Config, topic: set<TopicMessage>, s0: State, s: State, i: nat)
    requires Safe(cfg, topic, s0, s) && i < |s.handlers| && s.handlers[i].stage.Insert?
    ensures Safe(cfg, topic, s0, Step(cfg, s, i))
  {
    var h := s.handlers[i];
    assert HandlerSafe(cfg, topic, s, h);
    var row := h.stage.row;
    if SignatureTaken(s.rows, row.signature) {
      GotoSafe(cfg, topic, s0, s, i, Finished);
    } else {
      AddRowSafe(cfg, topic, s0, s, h.m, row);
      var u := s.(rows := s.rows + {row});
      assert HandlerSafe(cfg, topic, u, Handler(h.m, Count));
      GotoSafe(cfg, topic, s0, u, i, Count);
      assert Step(cfg, s, i) == Goto(u, i, Count);
    }
  }

  lemma StepSafe(cfg: Config, topic: set<TopicMessage>, s0: State, s: State, i: nat)
    requires Safe(cfg, topic, s0, s) && i < |s.handlers|
    ensures Safe(cfg, topic, s0, Step(cfg, s, i))
  {
    hide MessageKey, MessageDigest, ExpectedDigest, Sane;
    var h := s.handlers[i];
    assert HandlerSafe(cfg, topic, s, h);
    match h.stage
    case Await =>
      if Visible(s.transfers, h.m.transferId) {
        GotoSafe(cfg, topic, s0, s, i, if Sane(cfg, s.transfers, h.m) then Lookup else Finished);
      }
    case Lookup => LookupSafe(cfg, topic, s0, s, i);
    case Insert(_) => InsertSafe(cfg, topic, s0, s, i);
    case Count =>
      GotoSafe(cfg, topic, s0, s, i, if |RowsOf(s.rows, h.m.transferId)| >= Threshold(cfg) then Complete else Finished);
    case Complete => GotoSafe(cfg, topic, s0, s, i, Finished);
    case Finished =>
  }

  /** A newly visible transfer, a fresh handler, and a failed call keep the state safe. */
  lemma EnvironmentSafe(cfg: Config, topic: set<TopicMessage>, s0: State, s: State, a: Action)
    requires Safe(cfg, topic, s0, s) && !a.Advance? && (a.Deliver? ==> a.m in topic)
    ensures Safe(cfg, topic, s0, Apply(cfg, s, a))
  {
    hide MessageKey, SanityCheck, ExpectedDigest, Step;
    var t := Apply(cfg, s, a);
    if a.Fault? {
      if a.i < |s.handlers| {
        assert HandlerSafe(cfg, topic, s, s.handlers[a.i]);
        GotoSafe(cfg, topic, s0, s, a.i, Finished);
      }
    } else {
      forall j | 0 <= j < |t.handlers| ensures HandlerSafe(cfg, topic, t, t.handlers[j]) {
        if j < |s.handlers| { assert HandlerSafe(cfg, topic, s, s.handlers[j]); }
      }
    }
  }

  lemma {:induction false} RunSafe(cfg: Config, topic: set<TopicMessage>, s0: State, actions: seq<Action>)
    requires Initial(cfg, topic, s0) && FromTopic(topic, actions)
    ensures Safe(cfg, topic, s0, Run(cfg, s0, actions))
    decreases |actions|
  {
    hide MessageKey, Sane, Step;
    if actions != [] {
      hide Safe;
      var before, a := actions[..|actions| - 1], actions[|actions| - 1];
      RunSafe(cfg, topic, s0, before);
      var s := Run(cfg, s0, before);
      if a.Advance? {
        if a.i < |s.handlers| { StepSafe(cfg, topic, s0, s, a.i); }
      } else {
        EnvironmentSafe(cfg, topic, s0, s, a);
      }
    }
  }

  // ----- quorum safety -----

  /** The identities that signed the rows of a transfer. */
  function Signers(rows: set<Row>, id: TransferId): set<string> {
    set r | r in RowsOf(rows, id) :: Identity(r.signer)
  }

  function MemberIdentities(cfg: Config): set<string> {
    set k | k in cfg.members :: Identity(k)
  }

  /** Under one signature per digest, rows over one digest have distinct signers. */
  lemma RowsCountSigners(cfg: Config, topic: set<TopicMessage>, rows: set<Row>, id: TransferId)
    requires UniqueSignatures(rows) && RowKeys(rows) <= TopicKeys(cfg, topic)
    requires OneSignaturePerDigest(TopicKeys(cfg, topic))
    requires forall r, q :: r in RowsOf(rows, id) && q in RowsOf(rows, id) ==> r.hash == q.hash
    ensures |Signers(rows, id)| == |RowsOf(rows, id)|
    ensures Signers(rows, id) <= MemberIdentities(cfg)
  {
    hide MessageKey, Identity;
    var f := (r: Row) => Identity(r.signer);
    forall r, q | r in RowsOf(rows, id) && q in RowsOf(rows, id) && f(r) == f(q) ensures r == q {
      assert RowKey(r) in RowKeys(rows) && RowKey(q) in RowKeys(rows);
    }
    InjectiveImage(RowsOf(rows, id), f);
    assert Image(RowsOf(rows, id), f) == Signers(rows, id);
    forall r | r in RowsOf(rows, id) ensures Identity(r.signer) in MemberIdentities(cfg) {
      assert RowKey(r) in RowKeys(rows);
      SignerIsMember(cfg, topic, RowKey(r));
    }
  }

  lemma SignerIsMember(cfg: Config, topic: set<TopicMessage>, k: Key)
    requires k in TopicKeys(cfg, topic)
    ensures Identity(k.signer) in MemberIdentities(cfg)
  {
    hide Identity;
    assert IsMember(cfg, k.signer);
  }

  /** In every run, under any interleaving and any faults, all rows of a transfer carry the
      digest of the stored transfer exactly when the rows that were there before do: only
      rows stored earlier without the sanity check can be improper. */
  lemma ProperDigestsIff(cfg: Config, topic: set<TopicMessage>, s0: State, actions: seq<Action>, id: TransferId)
    requires Initial(cfg, topic, s0) && FromTopic(topic, actions)
    ensures var s := Run(cfg, s0, actions);
            ProperDigests(cfg, s.transfers, s.rows, id) <==> ProperDigests(cfg, s.transfers, s0.rows, id)
  {
    hide ExpectedDigest, MessageKey;
    RunSafe(cfg, topic, s0, actions);
    var s := Run(cfg, s0, actions);
    RowsGrow(s0.rows, s.rows, id);
    if ProperDigests(cfg, s.transfers, s0.rows, id) {
      forall r | r in RowsOf(s.rows, id)
        ensures id in s.transfers && ExpectedDigest(cfg, id, s.transfers[id]) == Some(r.hash)
      {
        assert r in s0.rows ==> r in RowsOf(s0.rows, id);
      }
    }
  }

  /** Whenever the completing write has been made for a transfer, its rows reach the
      threshold, carry pairwise distinct signatures over the one digest of the stored
      transfer, and are signed by a strict majority of the members. */
  lemma QuorumSafety(cfg: Config, topic: set<TopicMessage>, s0: State, actions: seq<Action>, id: TransferId)
    requires Initial(cfg, topic, s0) && FromTopic(topic, actions)
    requires ProperDigests(cfg, Run(cfg, s0, actions).transfers, s0.rows, id)
    requires OneSignaturePerDigest(TopicKeys(cfg, topic))
    requires id in Run(cfg, s0, actions).completed
    ensures var s := Run(cfg, s0, actions);
            && |RowsOf(s.rows, id)| >= Threshold(cfg)
            && UniqueSignatures(RowsOf(s.rows, id))
            && ProperDigests(cfg, s.transfers, s.rows, id)
            && Signers(s.rows, id) <= MemberIdentities(cfg)
            && 2 * |Signers(s.rows, id)| > |cfg.members|
  {
    hide ExpectedDigest, MessageKey;
    RunSafe(cfg, topic, s0, actions);
    ProperDigestsIff(cfg, topic, s0, actions, id);
    RowsCountSigners(cfg, topic, Run(cfg, s0, actions).rows, id);
  }

  /** The rows of a transfer that carry one digest. */
  function RowsWith(rows: set<Row>, id: TransferId, hash: Digest): set<Row> {
    set r | r in RowsOf(rows, id) && r.hash == hash
  }

  /** The signers of a digest that a database holds a majority for are more than half of the
      members. */
  lemma MajoritySigners(cfg: Config, topic: set<TopicMessage>, rows: set<Row>, id: TransferId, hash: Digest)
    requires UniqueSignatures(rows) && RowKeys(rows) <= TopicKeys(cfg, topic)
    requires OneSignaturePerDigest(TopicKeys(cfg, topic))
    requires |RowsWith(rows, id, hash)| >= Threshold(cfg)
    ensures Signers(RowsWith(rows, id, hash), id) <= MemberIdentities(cfg)
    ensures 2 * |Signers(RowsWith(rows, id, hash), id)| > |cfg.members|
  {
    hide MessageKey, Identity;
    var some := RowsWith(rows, id, hash);
    assert RowsOf(some, id) == some;
    forall k | k in RowKeys(some) ensures k in RowKeys(rows) {
      var r :| r in some && RowKey(r) == k;
      assert r in rows;
    }
    RowsCountSigners(cfg, topic, some, id);
  }

  /** Quorum intersection: if each member signs one digest of a transfer, no two validators'
      databases can hold majorities for different digests of it, for every member count,
      whatever their transfer tables say, with recovered rows and failed calls included. */
  lemma QuorumIntersection(cfg: Config, topic: set<TopicMessage>, s0: State, actions: seq<Action>,
                           t0: State, actions': seq<Action>, id: TransferId, hash: Digest, hash': Digest)
    requires Initial(cfg, topic, s0) && FromTopic(topic, actions)
    requires Initial(cfg, topic, t0) && FromTopic(topic, actions')
    requires OneSignaturePerDigest(TopicKeys(cfg, topic)) && OneDigestPerTransfer(TopicKeys(cfg, topic), id)
    requires |RowsWith(Run(cfg, s0, actions).rows, id, hash)| >= Threshold(cfg)
    requires |RowsWith(Run(cfg, t0, actions').rows, id, hash')| >= Threshold(cfg)
    ensures hash == hash'
  {
    hide Run, MessageKey, Identity;
    RunSafe(cfg, topic, s0, actions);
    RunSafe(cfg, topic, t0, actions');
    var a, b := RowsWith(Run(cfg, s0, actions).rows, id, hash), RowsWith(Run(cfg, t0, actions').rows, id, hash');
    MajoritySigners(cfg, topic, Run(cfg, s0, actions).rows, id, hash);
    MajoritySigners(cfg, topic, Run(cfg, t0, actions').rows, id, hash');
    MemberBound(cfg);
    var who := Overlap(Signers(a, id), Signers(b, id), MemberIdentities(cfg));
    var r :| r in RowsOf(a, id) && Identity(r.signer) == who;
    var q :| q in RowsOf(b, id) && Identity(q.signer) == who;
    assert RowKey(r) in RowKeys(Run(cfg, s0, actions).rows) && RowKey(q) in RowKeys(Run(cfg, t0, actions').rows);
  }

  /** Two validators that completed the same transfer expect the same digest of it. */
  lemma CompletedAgree(cfg: Config, topic: set<TopicMessage>,
                       s0: State, actions: seq<Action>, t0: State, actions': seq<Action>, id: TransferId)
    requires Initial(cfg, topic, s0) && FromTopic(topic, actions)
    requires Initial(cfg, topic, t0) && FromTopic(topic, actions')
    requires ProperDigests(cfg, Run(cfg, s0, actions).transfers, s0.rows, id)
    requires ProperDigests(cfg, Run(cfg, t0, actions').transfers, t0.rows, id)
    requires OneSignaturePerDigest(TopicKeys(cfg, topic)) && OneDigestPerTransfer(TopicKeys(cfg, topic), id)
    requires id in Run(cfg, s0, actions).completed && id in Run(cfg, t0, actions').completed
    ensures var s, t := Run(cfg, s0, actions), Run(cfg, t0, actions');
            && id in s.transfers && id in t.transfers
            && ExpectedDigest(cfg, id, s.transfers[id]).Some?
            && ExpectedDigest(cfg, id, s.transfers[id]) == ExpectedDigest(cfg, id, t.transfers[id])
  {
    hide ExpectedDigest, MessageKey, Identity, Run;
    var hash := CompletedDigest(cfg, topic, s0, actions, id);
    var hash' := CompletedDigest(cfg, topic, t0, actions', id);
    QuorumIntersection(cfg, topic, s0, actions, t0, actions', id, hash, hash');
  }

  /** All rows of a completed transfer carry its expected digest. */
  lemma CompletedDigest(cfg: Config, topic: set<TopicMessage>, s0: State, actions: seq<Action>, id: TransferId)
    returns (hash: Digest)
    requires Initial(cfg, topic, s0) && FromTopic(topic, actions)
    requires ProperDigests(cfg, Run(cfg, s0, actions).transfers, s0.rows, id)
    requires OneSignaturePerDigest(TopicKeys(cfg, topic))
    requires id in Run(cfg, s0, actions).completed
    ensures var s := Run(cfg, s0, actions);
            && id in s.transfers && ExpectedDigest(cfg, id, s.transfers[id]) == Some(hash)
            && |RowsWith(s.rows, id, hash)| >= Threshold(cfg)
  {
    hide ExpectedDigest, MessageKey, Identity, Run;
    QuorumSafety(cfg, topic, s0, actions, id);
    var s := Run(cfg, s0, actions);
    assert RowsOf(s.rows, id) != {};
    var r :| r in RowsOf(s.rows, id);
    hash := r.hash;
    assert RowsWith(s.rows, id, hash) == RowsOf(s.rows, id);
  }

  lemma MemberBound(cfg: Config)
    ensures |MemberIdentities(cfg)| <= |cfg.members|
  {
    hide Identity;
    var ids := seq(|cfg.members|, i requires 0 <= i < |cfg.members| => Identity(cfg.members[i]));
    SeqCard(ids);
    assert MemberIdentities(cfg) == set x | x in ids by {
      forall k | k in cfg.members ensures Identity(k) in ids {
        var i :| 0 <= i < |cfg.members| && cfg.members[i] == k;
        assert ids[i] == Identity(k);
      }
    }
  }

  // ----- confluence -----

  predicate NoFaults(actions: seq<Action>) {
    forall i :: 0 <= i < |actions| ==> !actions[i].Fault?
  }

  /** Some handler of the transfer has yet to count, or to make the completing write. */
  ghost predicate Pending(s: State, id: TransferId) {
    exists i :: 0 <= i < |s.handlers| && s.handlers[i].m.transferId == id
                && (s.handlers[i].stage.Count? || s.handlers[i].stage.Complete?)
  }

  ghost predicate Settled(cfg: Config, s: State, id: TransferId) {
    |RowsOf(s.rows, id)| >= Threshold(cfg) ==> id in s.completed || Pending(s, id)
  }

  ghost predicate KeyStored(cfg: Config, s: State, m: TopicMessage) {
    MessageKey(cfg, m).Some? && MessageKey(cfg, m).value in RowKeys(s.rows)
  }

  /** What a handler that met no fault has left behind. */
  ghost predicate HandlerLive(cfg: Config, s0: State, s: State, h: Handler) {
    && (!h.stage.Await? ==> Visible(s.transfers, h.m.transferId))
    && (match h.stage
        case Insert(row) => !Exists(s0.rows, row.transferId, row.signature, row.hash)
        case Count => KeyStored(cfg, s, h.m)
        case Complete => KeyStored(cfg, s, h.m)
        case Finished => Accepted(cfg, s.transfers, h.m) ==> KeyStored(cfg, s, h.m) && Settled(cfg, s, h.m.transferId)
        case _ => true)
  }

  ghost predicate AcceptedDelivery(cfg: Config, s: State, id: TransferId) {
    exists i :: 0 <= i < |s.handlers| && s.handlers[i].m.transferId == id && Accepted(cfg, s.transfers, s.handlers[i].m)
  }

  ghost predicate AcceptedSource(cfg: Config, s: State, k: Key) {
    exists i :: 0 <= i < |s.handlers| && Accepted(cfg, s.transfers, s.handlers[i].m)
                && MessageKey(cfg, s.handlers[i].m) == Some(k)
  }

  /** Every new row and every completing write stems from an accepted message. */
  ghost predicate Accounted(cfg: Config, s0: State, s: State) {
    && (forall k :: k in RowKeys(s.rows) ==> k in RowKeys(s0.rows) || AcceptedSource(cfg, s, k))
    && (forall id :: id in s.completed ==> AcceptedDelivery(cfg, s, id))
  }

  ghost predicate Live(cfg: Config, s0: State, s: State) {
    && (forall i :: 0 <= i < |s.handlers| ==> HandlerLive(cfg, s0, s, s.handlers[i]))
    && (forall r :: r in s.rows && r !in s0.rows ==> Settled(cfg, s, r.transferId))
    && Accounted(cfg, s0, s)
  }

  /** The later state `t` has every row, transfer, completing write and handler of `s`. */
  ghost predicate Extends(s: State, t: State) {
    && s.rows <= t.rows && s.completed <= t.completed
    && TransfersKept(s, t)
    && |s.handlers| <= |t.handlers|
    && (forall i :: 0 <= i < |s.handlers| ==> t.handlers[i].m == s.handlers[i].m)
  }

  ghost predicate SettledKept(cfg: Config, s: State, t: State) {
    forall id :: Settled(cfg, s, id) ==> Settled(cfg, t, id)
  }

  /** A later state in which only handler `i` has moved, and is live, and in which the new
      rows and completing writes are accounted for, is live. */
  lemma LiveKept(cfg: Config, s0: State, s: State, t: State, i: int)
    requires Live(cfg, s0, s) && Extends(s, t) && SettledKept(cfg, s, t)
    requires forall j :: 0 <= j < |t.handlers| && j != i ==> j < |s.handlers| && t.handlers[j] == s.handlers[j]
    requires 0 <= i < |t.handlers| ==> HandlerLive(cfg, s0, t, t.handlers[i])
    requires forall r :: r in t.rows && r !in s.rows ==>
               Settled(cfg, t, r.transferId) && AcceptedSource(cfg, t, RowKey(r))
    requires forall id :: id in t.completed && id !in s.completed ==> AcceptedDelivery(cfg, t, id)
    ensures Live(cfg, s0, t)
  {
    hide MessageKey, SanityCheck, Settled;
    forall j | 0 <= j < |t.handlers| ensures HandlerLive(cfg, s0, t, t.handlers[j]) {
      var h := t.handlers[j];
      if j != i {
        assert h == s.handlers[j];
        assert HandlerLive(cfg, s0, s, s.handlers[j]);
        KeyStoredKept(cfg, s, t, s.handlers[j].m);
      }
    }
    AccountedKept(cfg, s0, s, t);
  }

  /** A later state whose new rows and completing writes are accounted for is so as a whole. */
  lemma AccountedKept(cfg: Config, s0: State, s: State, t: State)
    requires Accounted(cfg, s0, s) && Extends(s, t)
    requires forall r :: r in t.rows && r !in s.rows ==> AcceptedSource(cfg, t, RowKey(r))
    requires forall id :: id in t.completed && id !in s.completed ==> AcceptedDelivery(cfg, t, id)
    ensures Accounted(cfg, s0, t)
  {
    hide MessageKey, SanityCheck;
    forall k | k in RowKeys(t.rows) ensures k in RowKeys(s0.rows) || AcceptedSource(cfg, t, k) {
      var r :| r in t.rows && RowKey(r) == k;
      if r in s.rows {
        assert k in RowKeys(s.rows);
        if k !in RowKeys(s0.rows) {
          var j :| 0 <= j < |s.handlers| && Accepted(cfg, s.transfers, s.handlers[j].m)
                   && MessageKey(cfg, s.handlers[j].m) == Some(k);
          assert Accepted(cfg, t.transfers, t.handlers[j].m);
        }
      }
    }
    forall id | id in t.completed ensures AcceptedDelivery(cfg, t, id) {
      if id in s.completed {
        var j :| 0 <= j < |s.handlers| && s.handlers[j].m.transferId == id
                 && Accepted(cfg, s.transfers, s.handlers[j].m);
        assert Accepted(cfg, t.transfers, t.handlers[j].m);
      }
    }
  }

  lemma KeyStoredKept(cfg: Config, s: State, t: State, m: TopicMessage)
    requires s.rows <= t.rows
    ensures KeyStored(cfg, s, m) ==> KeyStored(cfg, t, m)
  {
    hide MessageKey;
  }

  /** No step unsettles a transfer: an inserter counts after its own insert. */
  lemma StepSettledKept(cfg: Config, s: State, i: nat, t: State)
    requires i < |s.handlers| && t == Step(cfg, s, i)
    requires s.handlers[i].stage.Insert? ==> s.handlers[i].stage.row.transferId == s.handlers[i].m.transferId
    ensures SettledKept(cfg, s, t)
    ensures s.handlers[i].stage.Count? || s.handlers[i].stage.Complete? ==> Settled(cfg, t, s.handlers[i].m.transferId)
    ensures t.handlers[i].stage.Count? ==> Settled(cfg, t, s.handlers[i].m.transferId)
  {
    hide MessageKey, SanityCheck, Prepare, VerifySignature;
    var m := s.handlers[i].m;
    assert |t.handlers| == |s.handlers| && t.handlers[i].m == m;
    assert t.handlers[i].stage.Count? || t.handlers[i].stage.Complete? ==> Pending(t, m.transferId);
    forall id | Settled(cfg, s, id) ensures Settled(cfg, t, id) {
      if m.transferId != id {
        assert RowsOf(t.rows, id) == RowsOf(s.rows, id);
      }
      if Pending(s, id) {
        var j :| 0 <= j < |s.handlers| && s.handlers[j].m.transferId == id
                 && (s.handlers[j].stage.Count? || s.handlers[j].stage.Complete?);
        assert j != i ==> t.handlers[j] == s.handlers[j];
      }
    }
  }

  lemma StepExtends(cfg: Config, s: State, i: nat)
    requires i < |s.handlers|
    ensures var t := Step(cfg, s, i);
            && Extends(s, t) && |t.handlers| == |s.handlers|
            && forall j :: 0 <= j < |t.handlers| && j != i ==> t.handlers[j] == s.handlers[j]
  {
    hide SanityCheck, Prepare, VerifySignature, RowsOf;
  }

  lemma InsertsOwnTransfer(cfg: Config, topic: set<TopicMessage>, s0: State, s: State, i: nat)
    requires Safe(cfg, topic, s0, s) && i < |s.handlers| && s.handlers[i].stage.Insert?
    ensures s.handlers[i].stage.row.transferId == s.handlers[i].m.transferId
  {
    hide SanityCheck, Prepare, VerifySignature;
    assert HandlerSafe(cfg, topic, s, s.handlers[i]);
    KeyTransfer(cfg, s.handlers[i].m);
  }

  lemma StepLive(cfg: Config, topic: set<TopicMessage>, s0: State, s: State, i: nat)
    requires Safe(cfg, topic, s0, s) && Live(cfg, s0, s) && i < |s.handlers|
    requires OneDigestPerSignature(TopicKeys(cfg, topic))
    ensures Live(cfg, s0, Step(cfg, s, i))
  {
    hide Step, Live, Safe, HandlerLive, Settled, AcceptedSource, AcceptedDelivery;
    var t := Step(cfg, s, i);
    StepExtends(cfg, s, i);
    if s.handlers[i].stage.Insert? { InsertsOwnTransfer(cfg, topic, s0, s, i); }
    StepSettledKept(cfg, s, i, t);
    StepHandlerLive(cfg, topic, s0, s, i);
    StepAccounted(cfg, topic, s0, s, i);
    LiveKept(cfg, s0, s, t, i);
  }

  /** The new row of a step, and its completing write, stem from an accepted message. */
  lemma StepAccounted(cfg: Config, topic: set<TopicMessage>, s0: State, s: State, i: nat)
    requires Safe(cfg, topic, s0, s) && i < |s.handlers|
    ensures var t := Step(cfg, s, i);
            && (forall r :: r in t.rows && r !in s.rows ==>
                  Settled(cfg, t, r.transferId) && AcceptedSource(cfg, t, RowKey(r)))
            && (forall id :: id in t.completed && id !in s.completed ==> AcceptedDelivery(cfg, t, id))
  {
    hide MessageKey, SanityCheck, Prepare, VerifySignature, Settled;
    var h, t := s.handlers[i], Step(cfg, s, i);
    assert HandlerSafe(cfg, topic, s, h);
    assert t.transfers == s.transfers && t.handlers[i].m == h.m;
    if h.stage.Insert? {
      KeyTransfer(cfg, h.m);
      StepSettledKept(cfg, s, i, t);
    }
  }

  lemma KeyTransfer(cfg: Config, m: TopicMessage)
    requires MessageKey(cfg, m).Some?
    ensures MessageKey(cfg, m).value.transferId == m.transferId
  {}

  lemma LookupLive(cfg: Config, topic: set<TopicMessage>, s0: State, s: State, i: nat)
    requires Safe(cfg, topic, s0, s) && Live(cfg, s0, s) && i < |s.handlers| && s.handlers[i].stage.Lookup?
    ensures var t := Step(cfg, s, i); HandlerLive(cfg, s0, t, t.handlers[i])
  {
    hide SanityCheck, Settled;
    var m := s.handlers[i].m;
    assert HandlerSafe(cfg, topic, s, s.handlers[i]) && HandlerLive(cfg, s0, s, s.handlers[i]);
    var p := Prepare(cfg, m);
    if p.Some? && Exists(s.rows, m.transferId, p.value.signature.hex, p.value.hash) {
      var r :| r in s.rows && r.transferId == m.transferId && r.signature == p.value.signature.hex
               && r.hash == p.value.hash;
      ExistingRow(cfg, topic, s.rows, m, r);
      assert RowKey(r) in RowKeys(s.rows);
    }
  }

  /** Losing the race on the unique signature column means the same row is stored already,
      by a handler of this run that counts after its insert. */
  lemma ConflictLive(cfg: Config, topic: set<TopicMessage>, s0: State, s: State, i: nat)
    requires Safe(cfg, topic, s0, s) && Live(cfg, s0, s) && i < |s.handlers| && s.handlers[i].stage.Insert?
    requires SignatureTaken(s.rows, s.handlers[i].stage.row.signature)
    requires OneDigestPerSignature(TopicKeys(cfg, topic))
    ensures var t := Step(cfg, s, i); HandlerLive(cfg, s0, t, t.handlers[i])
  {
    hide MessageKey, SanityCheck, Settled;
    var h, t := s.handlers[i], Step(cfg, s, i);
    assert HandlerSafe(cfg, topic, s, h) && HandlerLive(cfg, s0, s, h);
    KeyTransfer(cfg, h.m);
    var row := h.stage.row;
    var r :| r in s.rows && r.signature == row.signature;
    assert RowKey(r) in RowKeys(s.rows);
    assert MessageKey(cfg, h.m).value in TopicKeys(cfg, topic);
    assert RowKey(r) == RowKey(row);
    assert Settled(cfg, s, h.m.transferId);
    StepSettledKept(cfg, s, i, t);
  }

  /** The handler that moves is live in its new stage. */
  lemma StepHandlerLive(cfg: Config, topic: set<TopicMessage>, s0: State, s: State, i: nat)
    requires Safe(cfg, topic, s0, s) && Live(cfg, s0, s) && i < |s.handlers|
    requires OneDigestPerSignature(TopicKeys(cfg, topic))
    ensures var t := Step(cfg, s, i); HandlerLive(cfg, s0, t, t.handlers[i])
  {
    hide SanityCheck, Settled, MessageKey, Prepare, VerifySignature, RowsOf;
    var h, t := s.handlers[i], Step(cfg, s, i);
    assert HandlerSafe(cfg, topic, s, h) && HandlerLive(cfg, s0, s, h);
    match h.stage
    case Lookup => LookupLive(cfg, topic, s0, s, i);
    case Insert(row) =>
      KeyTransfer(cfg, h.m);
      if SignatureTaken(s.rows, row.signature) {
        ConflictLive(cfg, topic, s0, s, i);
      } else {
        assert RowKey(row) in RowKeys(t.rows);
      }
    case Count => StepSettledKept(cfg, s, i, t);
    case Complete => StepSettledKept(cfg, s, i, t);
    case _ =>
  }

  lemma {:induction false} RunLive(cfg: Config, topic: set<TopicMessage>, s0: State, actions: seq<Action>)
    requires Initial(cfg, topic, s0) && FromTopic(topic, actions) && NoFaults(actions)
    requires OneDigestPerSignature(TopicKeys(cfg, topic))
    ensures Safe(cfg, topic, s0, Run(cfg, s0, actions)) && Live(cfg, s0, Run(cfg, s0, actions))
    decreases |actions|
  {
    hide MessageKey, SanityCheck, Settled;
    RunSafe(cfg, topic, s0, actions);
    if actions != [] {
      var before, a := actions[..|actions| - 1], actions[|actions| - 1];
      RunLive(cfg, topic, s0, before);
      var s, t := Run(cfg, s0, before), Run(cfg, s0, actions);
      match a
      case Store(id, f) => EnvironmentLive(cfg, s0, s, t);
      case Deliver(m) => EnvironmentLive(cfg, s0, s, t);
      case Advance(i) => if i < |s.handlers| { StepLive(cfg, topic, s0, s, i); }
      case Fault(i) => assert false;
    }
  }

  /** A stored transfer or a fresh handler changes nothing for the handlers at work. */
  lemma EnvironmentLive(cfg: Config, s0: State, s: State, t: State)
    requires Live(cfg, s0, s) && Extends(s, t) && t.rows == s.rows && t.completed == s.completed
    requires s.handlers <= t.handlers && |t.handlers| <= |s.handlers| + 1
    requires forall i :: |s.handlers| <= i < |t.handlers| ==> t.handlers[i].stage.Await?
    ensures Live(cfg, s0, t)
  {
    hide MessageKey, SanityCheck;
    forall id | Settled(cfg, s, id) ensures Settled(cfg, t, id) {
      if Pending(s, id) {
        var j :| 0 <= j < |s.handlers| && s.handlers[j].m.transferId == id
                 && (s.handlers[j].stage.Count? || s.handlers[j].stage.Complete?);
        assert t.handlers[j] == s.handlers[j];
      }
    }
    LiveKept(cfg, s0, s, t, |s.handlers|);
  }

  /** The rows an accepted set of deliveries leads to. */
  function AcceptedKeys(cfg: Config, transfers: map<TransferId, StoredTransfer>,
                        delivered: set<TopicMessage>): set<Key>
  {
    set m | m in delivered && Accepted(cfg, transfers, m) :: MessageKey(cfg, m).value
  }

  predicate AcceptedFor(cfg: Config, transfers: map<TransferId, StoredTransfer>, delivered: set<TopicMessage>,
                        id: TransferId)
  {
    exists m :: m in delivered && m.transferId == id && Accepted(cfg, transfers, m)
  }

  lemma ApplyAccounted(cfg: Config, topic: set<TopicMessage>, s0: State, s: State, a: Action)
    requires Safe(cfg, topic, s0, s) && Accounted(cfg, s0, s)
    ensures Accounted(cfg, s0, Apply(cfg, s, a))
  {
    hide Safe, Step, Accounted, AcceptedSource, AcceptedDelivery;
    if a.Advance? && a.i < |s.handlers| {
      StepExtends(cfg, s, a.i);
      StepAccounted(cfg, topic, s0, s, a.i);
    }
    AccountedKept(cfg, s0, s, Apply(cfg, s, a));
  }

  lemma {:induction false} RunAccounted(cfg: Config, topic: set<TopicMessage>, s0: State, actions: seq<Action>)
    requires Initial(cfg, topic, s0) && FromTopic(topic, actions)
    ensures Accounted(cfg, s0, Run(cfg, s0, actions))
    decreases |actions|
  {
    if actions != [] {
      hide Safe, Accounted, Apply;
      var before, a := actions[..|actions| - 1], actions[|actions| - 1];
      RunAccounted(cfg, topic, s0, before);
      RunSafe(cfg, topic, s0, before);
      ApplyAccounted(cfg, topic, s0, Run(cfg, s0, before), a);
    }
  }

  /** What every run keeps, finished or not, and whatever database calls fail: new rows and
      completing writes stem from accepted messages, and completed transfers reach the
      threshold. */
  lemma Provenance(cfg: Config, topic: set<TopicMessage>, s0: State, actions: seq<Action>)
    requires Initial(cfg, topic, s0) && FromTopic(topic, actions)
    ensures var s := Run(cfg, s0, actions);
            && RowKeys(s0.rows) <= RowKeys(s.rows)
            && RowKeys(s.rows) <= RowKeys(s0.rows) + AcceptedKeys(cfg, s.transfers, Delivered(s))
            && forall id :: id in s.completed ==>
                 |RowsOf(s.rows, id)| >= Threshold(cfg) && AcceptedFor(cfg, s.transfers, Delivered(s), id)
  {
    hide MessageKey, SanityCheck, Prepare, Run;
    RunSafe(cfg, topic, s0, actions);
    RunAccounted(cfg, topic, s0, actions);
    var s := Run(cfg, s0, actions);
    forall r | r in s0.rows ensures RowKey(r) in RowKeys(s.rows) { assert r in s.rows; }
    forall k | k in RowKeys(s.rows) && k !in RowKeys(s0.rows)
      ensures k in AcceptedKeys(cfg, s.transfers, Delivered(s))
    {
      assert AcceptedSource(cfg, s, k);
      var i :| 0 <= i < |s.handlers| && Accepted(cfg, s.transfers, s.handlers[i].m)
               && MessageKey(cfg, s.handlers[i].m) == Some(k);
      assert s.handlers[i].m in Delivered(s);
    }
    forall id | id in s.completed ensures AcceptedFor(cfg, s.transfers, Delivered(s), id) {
      assert AcceptedDelivery(cfg, s, id);
      var i :| 0 <= i < |s.handlers| && s.handlers[i].m.transferId == id && Accepted(cfg, s.transfers, s.handlers[i].m);
      assert s.handlers[i].m in Delivered(s);
    }
  }

  /** Once all handlers have finished without a failed call, the table is a function of the
      delivered set alone, and the completing write has been made exactly for the transfers
      that reach the threshold and had an accepted delivery. */
  lemma FinalState(cfg: Config, topic: set<TopicMessage>, s0: State, actions: seq<Action>)
    requires Initial(cfg, topic, s0) && FromTopic(topic, actions) && NoFaults(actions)
    requires OneDigestPerSignature(TopicKeys(cfg, topic))
    requires AllFinished(Run(cfg, s0, actions))
    ensures var s := Run(cfg, s0, actions);
            && RowKeys(s.rows) == RowKeys(s0.rows) + AcceptedKeys(cfg, s.transfers, Delivered(s))
            && forall id :: id in s.completed <==>
                 |RowsOf(s.rows, id)| >= Threshold(cfg) && AcceptedFor(cfg, s.transfers, Delivered(s), id)
  {
    hide MessageKey, SanityCheck, Prepare, Run;
    RunLive(cfg, topic, s0, actions);
    Provenance(cfg, topic, s0, actions);
    var s := Run(cfg, s0, actions);
    forall k | k in AcceptedKeys(cfg, s.transfers, Delivered(s)) ensures k in RowKeys(s.rows) {
      var m :| m in Delivered(s) && Accepted(cfg, s.transfers, m) && MessageKey(cfg, m).value == k;
      var i :| 0 <= i < |s.handlers| && s.handlers[i].m == m;
      assert HandlerLive(cfg, s0, s, s.handlers[i]);
    }
    forall id | |RowsOf(s.rows, id)| >= Threshold(cfg) && AcceptedFor(cfg, s.transfers, Delivered(s), id)
      ensures id in s.completed
    {
      var m :| m in Delivered(s) && m.transferId == id && Accepted(cfg, s.transfers, m);
      var i :| 0 <= i < |s.handlers| && s.handlers[i].m == m;
      assert HandlerLive(cfg, s0, s, s.handlers[i]);
      assert !Pending(s, id);
    }
  }

  /** Tables with the same keys have equally many rows for every transfer. */
  lemma SameKeysSameCount(rows: set<Row>, rows': set<Row>, id: TransferId)
    requires UniqueSignatures(rows) && UniqueSignatures(rows') && RowKeys(rows) == RowKeys(rows')
    ensures |RowsOf(rows, id)| == |RowsOf(rows', id)|
  {
    var f := (r: Row) => RowKey(r);
    InjectiveImage(RowsOf(rows, id), f);
    InjectiveImage(RowsOf(rows', id), f);
    KeysOfTransfer(rows, id);
    KeysOfTransfer(rows', id);
  }

  lemma KeysOfTransfer(rows: set<Row>, id: TransferId)
    ensures Image(RowsOf(rows, id), (r: Row) => RowKey(r)) == set k | k in RowKeys(rows) && k.transferId == id
  {
    var f := (r: Row) => RowKey(r);
    forall k | k in RowKeys(rows) && k.transferId == id ensures k in Image(RowsOf(rows, id), f) {
      var r :| r in rows && RowKey(r) == k;
      assert r in RowsOf(rows, id) && f(r) == k;
    }
  }

  /** Confluence: any interleaving, order and repetition of the same messages, and any time
      at which the transfers become visible, leaves the same (signature, signer, hash) rows
      and the same completing writes. */
  lemma Confluence(cfg: Config, topic: set<TopicMessage>, s0: State, actions: seq<Action>, actions': seq<Action>)
    requires Initial(cfg, topic, s0) && OneDigestPerSignature(TopicKeys(cfg, topic))
    requires FromTopic(topic, actions) && NoFaults(actions) && AllFinished(Run(cfg, s0, actions))
    requires FromTopic(topic, actions') && NoFaults(actions') && AllFinished(Run(cfg, s0, actions'))
    requires Run(cfg, s0, actions).transfers == Run(cfg, s0, actions').transfers
    requires Delivered(Run(cfg, s0, actions)) == Delivered(Run(cfg, s0, actions'))
    ensures var s, t := Run(cfg, s0, actions), Run(cfg, s0, actions');
            RowKeys(s.rows) == RowKeys(t.rows) && s.completed == t.completed
  {
    hide MessageKey, SanityCheck, Prepare, Run;
    FinalState(cfg, topic, s0, actions);
    FinalState(cfg, topic, s0, actions');
    RunSafe(cfg, topic, s0, actions);
    RunSafe(cfg, topic, s0, actions');
    var s, t := Run(cfg, s0, actions), Run(cfg, s0, actions');
    forall id ensures id in s.completed <==> id in t.completed {
      SameKeysSameCount(s.rows, t.rows, id);
    }
  }

  // ----- which failed calls lose a completing write -----

  predicate CountingStage(h: Handler, id: TransferId) {
    h.m.transferId == id && (h.stage.Count? || h.stage.Complete?)
  }

  /** The handlers of a transfer that count, or are about to complete, with a threshold of its
      rows stored. */
  function CountingNow(cfg: Config, s: State, id: TransferId): set<nat> {
    if |RowsOf(s.rows, id)| < Threshold(cfg) then {}
    else set i: nat | i < |s.handlers| && CountingStage(s.handlers[i], id)
  }

  /** Those that did so at some point of a run. */
  function Counting(cfg: Config, s0: State, actions: seq<Action>, id: TransferId): set<nat>
    decreases |actions|
  {
    if actions == [] then {}
    else Counting(cfg, s0, actions[..|actions| - 1], id) + CountingNow(cfg, Run(cfg, s0, actions), id)
  }

  /** The handlers whose count, or completing write, failed in a run. */
  function Failed(cfg: Config, s0: State, actions: seq<Action>, id: TransferId): set<nat>
    decreases |actions|
  {
    if actions == [] then {}
    else
      var before, a := actions[..|actions| - 1], actions[|actions| - 1];
      var s := Run(cfg, s0, before);
      Failed(cfg, s0, before, id)
      + if a.Fault? && a.i < |s.handlers| && CountingStage(s.handlers[a.i], id) then {a.i} else {}
  }

  /** Where the handlers that ever counted with a threshold stand, and who completed. */
  ghost predicate Tracked(cfg: Config, s: State, counting: set<nat>, failed: set<nat>, id: TransferId) {
    && (forall i :: i in counting ==>
          && i < |s.handlers| && |RowsOf(s.rows, id)| >= Threshold(cfg)
          && (i in failed || CountingStage(s.handlers[i], id) || (s.handlers[i].stage.Finished? && id in s.completed)))
    && (id in s.completed ==>
          exists i :: i in counting && i !in failed && i < |s.handlers| && s.handlers[i].stage.Finished?)
    && (forall i :: i in failed ==> i < |s.handlers| && s.handlers[i].stage.Finished?)
    && (forall i :: 0 <= i < |s.handlers| && s.handlers[i].stage.Complete? && s.handlers[i].m.transferId == id ==>
          i in counting)
    && CountingNow(cfg, s, id) <= counting
  }

  lemma StepTracked(cfg: Config, s: State, i: nat, counting: set<nat>, failed: set<nat>, id: TransferId)
    requires Tracked(cfg, s, counting, failed, id) && i < |s.handlers|
    ensures var t := Step(cfg, s, i); Tracked(cfg, t, counting + CountingNow(cfg, t, id), failed, id)
  {
    hide SanityCheck, Prepare, VerifySignature, RowsOf;
    var t := Step(cfg, s, i);
    StepExtends(cfg, s, i);
    RowsGrow(s.rows, t.rows, id);
  }

  lemma FaultTracked(cfg: Config, s: State, i: nat, counting: set<nat>, failed: set<nat>, id: TransferId)
    requires Tracked(cfg, s, counting, failed, id) && i < |s.handlers|
    ensures var t := Goto(s, i, Finished);
            var lost := if CountingStage(s.handlers[i], id) then {i} else {};
            Tracked(cfg, t, counting + CountingNow(cfg, t, id), failed + lost, id)
  {
    hide RowsOf;
  }

  lemma EnvironmentTracked(cfg: Config, s: State, a: Action, counting: set<nat>, failed: set<nat>, id: TransferId)
    requires Tracked(cfg, s, counting, failed, id) && (a.Store? || a.Deliver?)
    ensures var t := Apply(cfg, s, a); Tracked(cfg, t, counting + CountingNow(cfg, t, id), failed, id)
  {
    hide RowsOf, Step;
  }

  lemma {:induction false} RunTracked(cfg: Config, s0: State, actions: seq<Action>, id: TransferId)
    requires s0.handlers == [] && s0.completed == {}
    ensures Tracked(cfg, Run(cfg, s0, actions), Counting(cfg, s0, actions, id), Failed(cfg, s0, actions, id), id)
    decreases |actions|
  {
    if actions != [] {
      hide Tracked, Step, CountingNow;
      var before, a := actions[..|actions| - 1], actions[|actions| - 1];
      RunTracked(cfg, s0, before, id);
      var s := Run(cfg, s0, before);
      var counting, failed := Counting(cfg, s0, before, id), Failed(cfg, s0, before, id);
      if (a.Advance? || a.Fault?) && a.i >= |s.handlers| {
        SameTracked(cfg, s, counting, failed, id);
      } else {
        match a
        case Advance(i) => StepTracked(cfg, s, i, counting, failed, id);
        case Fault(i) => FaultTracked(cfg, s, i, counting, failed, id);
        case _ => EnvironmentTracked(cfg, s, a, counting, failed, id);
      }
    }
  }

  lemma SameTracked(cfg: Config, s: State, counting: set<nat>, failed: set<nat>, id: TransferId)
    requires Tracked(cfg, s, counting, failed, id)
    ensures Tracked(cfg, s, counting + CountingNow(cfg, s, id), failed, id)
  {
    assert counting + CountingNow(cfg, s, id) == counting;
  }

  /** With a threshold of rows, one of them inserted by this run, some handler has counted with
      the threshold stored: the one that inserted last. */
  lemma {:induction false} LastInserterCounts(cfg: Config, topic: set<TopicMessage>, s0: State, actions: seq<Action>,
                                              id: TransferId)
    requires Initial(cfg, topic, s0) && FromTopic(topic, actions)
    requires var s := Run(cfg, s0, actions);
             RowsOf(s.rows, id) != RowsOf(s0.rows, id) && |RowsOf(s.rows, id)| >= Threshold(cfg)
    ensures Counting(cfg, s0, actions, id) != {}
    decreases |actions|
  {
    if actions != [] {
      hide Safe, RowsOf, SanityCheck, Prepare, VerifySignature;
      var before, a := actions[..|actions| - 1], actions[|actions| - 1];
      var s, t := Run(cfg, s0, before), Run(cfg, s0, actions);
      if RowsOf(t.rows, id) == RowsOf(s.rows, id) {
        LastInserterCounts(cfg, topic, s0, before, id);
      } else {
        assert a.Advance? && a.i < |s.handlers| && s.handlers[a.i].stage.Insert?;
        RunSafe(cfg, topic, s0, before);
        InsertsOwnTransfer(cfg, topic, s0, s, a.i);
        OtherRowsKept(s.rows, s.handlers[a.i].stage.row, id);
        assert a.i in CountingNow(cfg, t, id);
      }
    }
  }

  lemma OtherRowsKept(rows: set<Row>, row: Row, id: TransferId)
    ensures row.transferId != id ==> RowsOf(rows + {row}, id) == RowsOf(rows, id)
  {}

  /** Exactly which failed calls lose a completing write: once all handlers have finished, it
      has been made if and only if some handler that counted with the threshold stored met no
      failure in its count and in its write. There is such a counter whenever this run
      inserted a row of a transfer that reaches the threshold; failures of other calls never
      matter. */
  lemma CompletionIff(cfg: Config, topic: set<TopicMessage>, s0: State, actions: seq<Action>, id: TransferId)
    requires Initial(cfg, topic, s0) && FromTopic(topic, actions) && AllFinished(Run(cfg, s0, actions))
    ensures var s := Run(cfg, s0, actions);
            var counting := Counting(cfg, s0, actions, id);
            && (id in s.completed <==> counting - Failed(cfg, s0, actions, id) != {})
            && (|RowsOf(s.rows, id)| >= Threshold(cfg) && RowsOf(s.rows, id) != RowsOf(s0.rows, id) ==> counting != {})
  {
    hide Run, RowsOf;
    RunTracked(cfg, s0, actions, id);
    var s := Run(cfg, s0, actions);
    if |RowsOf(s.rows, id)| >= Threshold(cfg) && RowsOf(s.rows, id) != RowsOf(s0.rows, id) {
      LastInserterCounts(cfg, topic, s0, actions, id);
    }
  }
}
