/** The life of a transfer row over the runs of one validator process: recovery, the gate in
    the transfer handler, and the status writes, interleaved in any order, with database and
    network calls that may fail and a process that may stop at any point. */
module Lifecycle {
  type TxId = string

  datatype Status = Initial | Recovered | InProgress | Completed

  datatype SignatureStatus = NoSignature | SignatureSubmitted | SignatureMined | SignatureFailed

  datatype Row = Row(status: Status, signature: SignatureStatus)

  /** Statuses that the recovery pass picks up again. */
  predicate Unprocessed(row: Row) { row.status.Initial? || row.status.Recovered? }

  /** The one write that records a submitted signature, whatever the status was. */
  function MarkSubmitted(row: Row): Row { Row(InProgress, SignatureSubmitted) }

  datatype Stage =
    | Lookup                       // reading the row of a delivered transfer
    | CreateRow
    | Submit                       // inside ProcessTransfer: the topic message
    | WriteSubmitted
    | AwaitMined
    | WriteMined(success: bool)
    | Finished

  datatype Task = Task(tx: TxId, stage: Stage)

  /** Recovery saves rows, then processes the unprocessed ones it queried; then the watchers
      start. */
  datatype Phase = Saving | Processing(queue: set<TxId>) | Watching

  /** `entered` counts the entries into ProcessTransfer of the present run of the process,
      `ever` those of all runs. `boundary` is the end of the recovery window, where the
      watcher starts. */
  datatype State = State(
    rows: map<TxId, Row>,
    tasks: seq<Task>,
    phase: Phase,
    boundary: int,
    delivered: set<TxId>,
    entered: multiset<TxId>,
    ever: multiset<TxId>)

  datatype Action =
    | Restart(boundary: int)             // the process stops and starts again
    | SaveRecovered(tx: TxId, ok: bool)
    | QueryUnprocessed
    | ProcessNext(tx: TxId)
    | StartWatching
    | Deliver(tx: TxId)                  // the transfer watcher hands a transfer on
    | Advance(i: nat, ok: bool)          // one call of one task, with its outcome
    | Complete(tx: TxId)                 // a message handler reaches the majority

  /** The consensus timestamp of every transfer. */
  type Clock = TxId -> int

  function Goto(s: State, i: nat, stage: Stage): State
    requires i < |s.tasks|
  {
    s.(tasks := s.tasks[i := s.tasks[i].(stage := stage)])
  }

  function Enter(s: State, tx: TxId): State {
    s.(entered := s.entered + multiset{tx}, ever := s.ever + multiset{tx})
  }

  function Step(s: State, i: nat, ok: bool): (t: State)
    requires i < |s.tasks|
    ensures |t.tasks| == |s.tasks|
  {
    var tx := s.tasks[i].tx;
    match s.tasks[i].stage
    case Lookup =>
      if !ok then Goto(s, i, Finished)
      else if tx !in s.rows then Goto(s, i, CreateRow)
      else if s.rows[tx].status.Initial? then Enter(Goto(s, i, Submit), tx)
      else Goto(s, i, Finished)
    case CreateRow =>
      if !ok || tx in s.rows then Goto(s, i, Finished)
      else Enter(Goto(s, i, Submit), tx).(rows := s.rows[tx := Row(Initial, NoSignature)])
    case Submit => Goto(s, i, if ok then WriteSubmitted else Finished)
    case WriteSubmitted =>
      if ok && tx in s.rows then Goto(s, i, AwaitMined).(rows := s.rows[tx := MarkSubmitted(s.rows[tx])])
      else Goto(s, i, Finished)
    case AwaitMined => Goto(s, i, WriteMined(ok))
    case WriteMined(success) =>
      if ok && tx in s.rows then
        var row := s.rows[tx].(signature := if success then SignatureMined else SignatureFailed);
        Goto(s, i, Finished).(rows := s.rows[tx := row])
      else Goto(s, i, Finished)
    case Finished => s
  }

  function Apply(ts: Clock, s: State, a: Action): State {
    match a
    case Restart(boundary) =>
      // the clock has passed every recorded transfer and every earlier start
      if (forall tx :: tx in s.rows ==> ts(tx) < boundary) && s.boundary < boundary
      then State(s.rows, [], Saving, boundary, {}, multiset{}, s.ever) else s
    case SaveRecovered(tx, ok) =>
      if s.phase.Saving? && ts(tx) < s.boundary && ok && tx !in s.rows
      then s.(rows := s.rows[tx := Row(Recovered, NoSignature)]) else s
    case QueryUnprocessed =>
      if s.phase.Saving? then s.(phase := Processing(set tx | tx in s.rows && Unprocessed(s.rows[tx]))) else s
    case ProcessNext(tx) =>
      if s.phase.Processing? && tx in s.phase.queue
      then Enter(s, tx).(phase := Processing(s.phase.queue - {tx}), tasks := s.tasks + [Task(tx, Submit)]) else s
    case StartWatching =>
      // recovery is skipped altogether when there is no earlier cursor
      if s.phase.Saving? || s.phase == Processing({}) then s.(phase := Watching) else s
    case Deliver(tx) =>
      if s.phase.Watching? && s.boundary < ts(tx) && tx !in s.delivered
      then s.(delivered := s.delivered + {tx}, tasks := s.tasks + [Task(tx, Lookup)]) else s
    case Advance(i, ok) => if i < |s.tasks| then Step(s, i, ok) else s
    case Complete(tx) =>
      if tx in s.rows then s.(rows := s.rows[tx := s.rows[tx].(status := Completed)]) else s
  }

  function Continue(ts: Clock, s: State, actions: seq<Action>): State
    decreases |actions|
  {
    if actions == [] then s else Apply(ts, Continue(ts, s, actions[..|actions| - 1]), actions[|actions| - 1])
  }

  /** An empty database at the first start of the process. */
  function Start(boundary: int): State {
    State(map[], [], Saving, boundary, {}, multiset{}, multiset{})
  }

  function Run(ts: Clock, boundary: int, actions: seq<Action>): State {
    Continue(ts, Start(boundary), actions)
  }

  // ----- invariant -----

  predicate Fetching(task: Task) { task.stage.Lookup? || task.stage.CreateRow? }

  predicate Signing(task: Task) { task.stage.Submit? || task.stage.WriteSubmitted? }

  predicate Queued(s: State, tx: TxId) { s.phase.Processing? && tx in s.phase.queue }

  ghost predicate TaskOk(ts: Clock, s: State, task: Task) {
    var tx := task.tx;
    && (Fetching(task) ==> tx in s.delivered && s.entered[tx] == 0)
    && (Signing(task) ==> tx in s.rows && s.rows[tx].signature.NoSignature? && s.entered[tx] == 1)
    && (task.stage.AwaitMined? || task.stage.WriteMined? ==>
          tx in s.rows && s.rows[tx].signature.SignatureSubmitted? && !Unprocessed(s.rows[tx]) && s.entered[tx] == 1)
  }

  ghost predicate TxOk(ts: Clock, s: State, tx: TxId) {
    && (tx in s.delivered ==> s.boundary < ts(tx) && s.phase.Watching?)
    && (tx in s.rows ==> ts(tx) < s.boundary || tx in s.delivered)
    && (tx in s.rows && Unprocessed(s.rows[tx]) ==> s.rows[tx].signature.NoSignature?)
    && (Queued(s, tx) ==> tx in s.rows && s.rows[tx].signature.NoSignature? && s.entered[tx] == 0)
    && (s.phase.Saving? ==> s.entered[tx] == 0)
    && s.entered[tx] <= 1
    && (s.entered[tx] == 1 ==> tx in s.rows)
  }

  ghost predicate Inv(ts: Clock, s: State) {
    && (forall i :: 0 <= i < |s.tasks| ==> TaskOk(ts, s, s.tasks[i]))
    && (forall i, j :: 0 <= i < j < |s.tasks| && !s.tasks[i].stage.Finished? && !s.tasks[j].stage.Finished? ==>
          s.tasks[i].tx != s.tasks[j].tx)
    && (forall tx :: TxOk(ts, s, tx))
  }

  /** Two unfinished tasks are never about the same transfer. */
  lemma Alone(ts: Clock, s: State, i: nat, j: nat)
    requires Inv(ts, s) && i < |s.tasks| && j < |s.tasks| && i != j
    requires !s.tasks[i].stage.Finished? && !s.tasks[j].stage.Finished?
    ensures s.tasks[i].tx != s.tasks[j].tx
  {}

  /** Nothing about other transfers changes. */
  ghost predicate Elsewhere(s: State, t: State, tx: TxId) {
    && t.boundary == s.boundary
    && (|| s.phase == t.phase
        || (s.phase.Processing? && t.phase.Processing? && s.phase.queue - {tx} == t.phase.queue - {tx}))
    && (forall x :: x != tx ==>
          && (x in t.rows <==> x in s.rows) && (x in s.rows ==> t.rows[x] == s.rows[x])
          && t.entered[x] == s.entered[x] && (x in t.delivered <==> x in s.delivered))
  }

  lemma TxElsewhere(ts: Clock, s: State, t: State, tx: TxId, x: TxId)
    requires Elsewhere(s, t, tx) && x != tx && TxOk(ts, s, x)
    ensures TxOk(ts, t, x)
  {
    if Queued(t, x) { assert x in t.phase.queue - {tx}; }
  }

  lemma TaskElsewhere(ts: Clock, s: State, t: State, tx: TxId, task: Task)
    requires Elsewhere(s, t, tx) && (task.tx != tx || task.stage.Finished?) && TaskOk(ts, s, task)
    ensures TaskOk(ts, t, task)
  {}

  lemma StepElsewhere(s: State, i: nat, ok: bool)
    requires i < |s.tasks|
    ensures Elsewhere(s, Step(s, i, ok), s.tasks[i].tx)
  {
    hide MarkSubmitted, Enter;
    EnterElsewhere(Goto(s, i, Submit), s.tasks[i].tx);
  }

  lemma EnterElsewhere(s: State, tx: TxId)
    ensures var t := Enter(s, tx);
            && t == s.(entered := t.entered, ever := t.ever)
            && forall x :: x != tx ==> t.entered[x] == s.entered[x]
  {}

  lemma StepTasks(s: State, i: nat, ok: bool)
    requires i < |s.tasks|
    ensures var t := Step(s, i, ok);
            && |t.tasks| == |s.tasks| && t.tasks[i].tx == s.tasks[i].tx
            && forall j :: 0 <= j < |t.tasks| && j != i ==> t.tasks[j] == s.tasks[j]
  {
    hide MarkSubmitted;
  }

  lemma StepHere(ts: Clock, s: State, i: nat, ok: bool)
    requires i < |s.tasks| && TaskOk(ts, s, s.tasks[i]) && TxOk(ts, s, s.tasks[i].tx)
    ensures var t := Step(s, i, ok); TaskOk(ts, t, t.tasks[i]) && TxOk(ts, t, t.tasks[i].tx)
    ensures s.tasks[i].stage.Finished? ==> Step(s, i, ok) == s
  {}

  lemma StepInv(ts: Clock, s: State, i: nat, ok: bool)
    requires Inv(ts, s) && i < |s.tasks|
    ensures Inv(ts, Step(s, i, ok))
  {
    var t, tx := Step(s, i, ok), s.tasks[i].tx;
    assert TaskOk(ts, s, s.tasks[i]) && TxOk(ts, s, tx);
    StepElsewhere(s, i, ok);
    StepTasks(s, i, ok);
    StepHere(ts, s, i, ok);
    hide Step, TaskOk, TxOk, Elsewhere;
    if !s.tasks[i].stage.Finished? {
      forall j | 0 <= j < |t.tasks| ensures TaskOk(ts, t, t.tasks[j]) {
        assert TaskOk(ts, s, s.tasks[j]);
        if j != i {
          if !s.tasks[j].stage.Finished? { Alone(ts, s, i, j); }
          TaskElsewhere(ts, s, t, tx, s.tasks[j]);
        }
      }
      forall j, k | 0 <= j < k < |t.tasks| && !t.tasks[j].stage.Finished? && !t.tasks[k].stage.Finished?
        ensures t.tasks[j].tx != t.tasks[k].tx
      {
        Alone(ts, s, j, k);
      }
      forall x ensures TxOk(ts, t, x) {
        assert TxOk(ts, s, x);
        if x != tx { TxElsewhere(ts, s, t, tx, x); }
      }
    }
  }

  /** The actions of the environment that concern one transfer. */
  lemma EnvironmentInv(ts: Clock, s: State, a: Action, tx: TxId)
    requires Inv(ts, s)
    requires || a == ProcessNext(tx) || a == Deliver(tx) || a == Complete(tx)
             || a == SaveRecovered(tx, true) || a == SaveRecovered(tx, false)
    ensures Inv(ts, Apply(ts, s, a))
  {
    var t := Apply(ts, s, a);
    assert TxOk(ts, s, tx);
    assert Elsewhere(s, t, tx);
    assert TxOk(ts, t, tx);
    forall j | 0 <= j < |t.tasks| ensures TaskOk(ts, t, t.tasks[j]) {
      if j < |s.tasks| {
        assert TaskOk(ts, s, s.tasks[j]);
        if s.tasks[j].tx != tx { TaskElsewhere(ts, s, t, tx, s.tasks[j]); }
      }
    }
    forall x ensures TxOk(ts, t, x) {
      assert TxOk(ts, s, x);
      if x != tx { TxElsewhere(ts, s, t, tx, x); }
    }
    if |t.tasks| > |s.tasks| { NoOtherTask(ts, s, a, tx); }
  }

  /** A transfer is started only when no unfinished task is about it. */
  lemma NoOtherTask(ts: Clock, s: State, a: Action, tx: TxId)
    requires Inv(ts, s) && (a == ProcessNext(tx) || a == Deliver(tx)) && |Apply(ts, s, a).tasks| > |s.tasks|
    ensures forall j :: 0 <= j < |s.tasks| && !s.tasks[j].stage.Finished? ==> s.tasks[j].tx != tx
  {
    assert TxOk(ts, s, tx);
    forall j | 0 <= j < |s.tasks| && !s.tasks[j].stage.Finished? ensures s.tasks[j].tx != tx {
      assert TaskOk(ts, s, s.tasks[j]);
    }
  }

  /** Starting the process, the recovery query and the start of the watchers. */
  lemma PhaseInv(ts: Clock, s: State, a: Action)
    requires Inv(ts, s) && (a.Restart? || a.QueryUnprocessed? || a.StartWatching?)
    ensures Inv(ts, Apply(ts, s, a))
  {
    var t := Apply(ts, s, a);
    forall j | 0 <= j < |t.tasks| ensures TaskOk(ts, t, t.tasks[j]) {
      assert TaskOk(ts, s, s.tasks[j]);
    }
    forall x ensures TxOk(ts, t, x) {
      assert TxOk(ts, s, x);
    }
  }

  lemma ApplyInv(ts: Clock, s: State, a: Action)
    requires Inv(ts, s)
    ensures Inv(ts, Apply(ts, s, a))
  {
    match a
    case Restart(_) => PhaseInv(ts, s, a);
    case QueryUnprocessed => PhaseInv(ts, s, a);
    case StartWatching => PhaseInv(ts, s, a);
    case Advance(i, ok) => if i < |s.tasks| { StepInv(ts, s, i, ok); }
    case SaveRecovered(tx, ok) => EnvironmentInv(ts, s, a, tx);
    case ProcessNext(tx) => EnvironmentInv(ts, s, a, tx);
    case Deliver(tx) => EnvironmentInv(ts, s, a, tx);
    case Complete(tx) => EnvironmentInv(ts, s, a, tx);
  }

  lemma {:induction false} ContinueInv(ts: Clock, s: State, actions: seq<Action>)
    requires Inv(ts, s)
    ensures Inv(ts, Continue(ts, s, actions))
    decreases |actions|
  {
    if actions != [] {
      hide Inv, Apply;
      var before := actions[..|actions| - 1];
      ContinueInv(ts, s, before);
      ApplyInv(ts, Continue(ts, s, before), actions[|actions| - 1]);
    }
  }

  lemma RunInv(ts: Clock, boundary: int, actions: seq<Action>)
    ensures Inv(ts, Run(ts, boundary, actions))
  {
    ContinueInv(ts, Start(boundary), actions);
  }

  // ----- what holds over whole runs -----

  /** Within one run of the process a transfer enters ProcessTransfer at most once. */
  lemma AtMostOncePerRun(ts: Clock, boundary: int, actions: seq<Action>, tx: TxId)
    ensures Run(ts, boundary, actions).entered[tx] <= 1
  {
    RunInv(ts, boundary, actions);
    hide Run;
    assert TxOk(ts, Run(ts, boundary, actions), tx);
  }

  /** A transfer whose status has left INITIAL and RECOVERED, and that the recovery pass has
      not queried before it did, has no way back. */
  predicate Passed(s: State, tx: TxId) {
    tx in s.rows && !Unprocessed(s.rows[tx]) && !Queued(s, tx)
  }

  lemma {:induction false} PassedStays(ts: Clock, s: State, actions: seq<Action>, tx: TxId)
    requires Passed(s, tx)
    ensures var t := Continue(ts, s, actions); Passed(t, tx) && t.ever[tx] == s.ever[tx]
    decreases |actions|
  {
    if actions != [] {
      hide Passed, Apply;
      var before := actions[..|actions| - 1];
      PassedStays(ts, s, before, tx);
      PassedStep(ts, Continue(ts, s, before), actions[|actions| - 1], tx);
    }
  }

  lemma PassedStep(ts: Clock, s: State, a: Action, tx: TxId)
    requires Passed(s, tx)
    ensures var t := Apply(ts, s, a); Passed(t, tx) && t.ever[tx] == s.ever[tx]
  {
    if a.Advance? {
      if a.i < |s.tasks| { PassedAdvance(s, a.i, a.ok, tx); }
    } else {
      hide Step;
    }
  }

  lemma PassedAdvance(s: State, i: nat, ok: bool, tx: TxId)
    requires Passed(s, tx) && i < |s.tasks|
    ensures var t := Step(s, i, ok); Passed(t, tx) && t.ever[tx] == s.ever[tx]
  {}

  /** One more entry into ProcessTransfer is possible. */
  ghost predicate CanEnterAgain(ts: Clock, s: State, tx: TxId) {
    exists actions :: Continue(ts, s, actions).ever[tx] > s.ever[tx]
  }

  lemma ContinueExtend(ts: Clock, s: State, before: seq<Action>, a: Action)
    ensures Continue(ts, s, before + [a]) == Apply(ts, Continue(ts, s, before), a)
  {
    assert (before + [a])[..|before|] == before;
  }

  /** A recorded transfer can be processed once more, in this run or any later one, if and
      only if its status is still INITIAL or RECOVERED or the recovery pass holds it queued. */
  lemma ReprocessedIff(ts: Clock, s: State, tx: TxId)
    requires tx in s.rows
    ensures CanEnterAgain(ts, s, tx)
            <==> || s.rows[tx].status == Initial || s.rows[tx].status == Recovered
                 || (s.phase.Processing? && tx in s.phase.queue)
  {
    if Queued(s, tx) {
      ContinueExtend(ts, s, [], ProcessNext(tx));
      assert Continue(ts, s, [] + [ProcessNext(tx)]).ever[tx] > s.ever[tx];
    } else if Unprocessed(s.rows[tx]) {
      ReprocessTrace(ts, s, tx);
    } else {
      forall actions ensures Continue(ts, s, actions).ever[tx] == s.ever[tx] { PassedStays(ts, s, actions, tx); }
    }
  }

  /** After a restart the recovery pass processes every row left INITIAL or RECOVERED. */
  lemma ReprocessTrace(ts: Clock, s: State, tx: TxId)
    requires tx in s.rows && Unprocessed(s.rows[tx])
    ensures CanEnterAgain(ts, s, tx)
  {
    hide Continue;
    var boundary := LatestRow(ts, s.rows, s.boundary);
    var a, b, c := Restart(boundary), QueryUnprocessed, ProcessNext(tx);
    ContinueNone(ts, s);
    ContinueExtend(ts, s, [], a);
    ContinueExtend(ts, s, [] + [a], b);
    ContinueExtend(ts, s, [] + [a] + [b], c);
    RestartedEntry(ts, s, tx, boundary);
    assert Continue(ts, s, [] + [a] + [b] + [c]).ever[tx] > s.ever[tx];
  }

  lemma ContinueNone(ts: Clock, s: State)
    ensures Continue(ts, s, []) == s
  {}

  lemma RestartedEntry(ts: Clock, s: State, tx: TxId, boundary: int)
    requires tx in s.rows && Unprocessed(s.rows[tx])
    requires s.boundary < boundary && forall x :: x in s.rows ==> ts(x) < boundary
    ensures Apply(ts, Apply(ts, Apply(ts, s, Restart(boundary)), QueryUnprocessed), ProcessNext(tx)).ever[tx]
            == s.ever[tx] + 1
  {
    hide Step;
    var r := Apply(ts, s, Restart(boundary));
    assert r.rows == s.rows && r.phase.Saving? && r.ever == s.ever;
    var q := Apply(ts, r, QueryUnprocessed);
    assert q.phase.Processing? && tx in q.phase.queue;
  }

  /** A transfer that recovery saves is queued by the query that follows, whatever else is saved
      in between, and then processed. */
  lemma RecoveredIsQueued(ts: Clock, s: State, tx: TxId, saves: seq<Action>)
    requires s.phase.Saving? && ts(tx) < s.boundary && tx !in s.rows
    requires forall i :: 0 <= i < |saves| ==> saves[i].SaveRecovered?
    ensures var t := Continue(ts, s, [SaveRecovered(tx, true)] + saves + [QueryUnprocessed]);
            && t.phase.Processing? && tx in t.phase.queue && tx in t.rows && t.rows[tx].status == Recovered
            && Apply(ts, t, ProcessNext(tx)).entered[tx] == s.entered[tx] + 1
  {
    hide Continue;
    var first := SaveRecovered(tx, true);
    ContinueNone(ts, s);
    ContinueExtend(ts, s, [], first);
    assert [] + [first] == [first];
    SavedStays(ts, s, tx, [first], saves);
    ContinueExtend(ts, s, [first] + saves, QueryUnprocessed);
  }

  lemma {:induction false} SavedStays(ts: Clock, s: State, tx: TxId, before: seq<Action>, saves: seq<Action>)
    requires forall i :: 0 <= i < |saves| ==> saves[i].SaveRecovered?
    requires var t := Continue(ts, s, before); t.phase.Saving? && tx in t.rows
    ensures var t, u := Continue(ts, s, before), Continue(ts, s, before + saves);
            u.phase.Saving? && tx in u.rows && u.rows[tx] == t.rows[tx] && u.entered == t.entered
    decreases |saves|
  {
    hide Continue;
    if saves == [] {
      assert before + saves == before;
    } else {
      var n := |saves| - 1;
      SavedStays(ts, s, tx, before, saves[..n]);
      ContinueExtend(ts, s, before + saves[..n], saves[n]);
      assert before + saves == before + saves[..n] + [saves[n]];
    }
  }

  /** The callback for the mined topic message records MINED exactly for a success. */
  lemma MinedRecorded(s: State, i: nat, success: bool)
    requires i < |s.tasks| && s.tasks[i].stage == WriteMined(success) && s.tasks[i].tx in s.rows
    ensures var tx, t := s.tasks[i].tx, Step(s, i, true);
            && t.rows == s.rows[tx := Row(s.rows[tx].status, if success then SignatureMined else SignatureFailed)]
            && Step(s, i, false).rows == s.rows
  {}

  /** A moment after every recorded transfer. */
  lemma {:induction false} LatestRow(ts: Clock, rows: map<TxId, Row>, least: int) returns (boundary: int)
    ensures least < boundary && forall tx :: tx in rows ==> ts(tx) < boundary
    decreases |rows|
  {
    if rows == map[] {
      boundary := least + 1;
    } else {
      var x :| x in rows;
      var rest := rows - {x};
      assert |rest| < |rows| by { assert rest.Keys == rows.Keys - {x}; }
      boundary := LatestRow(ts, rest, if least < ts(x) then ts(x) else least);
      forall tx | tx in rows ensures ts(tx) < boundary { assert tx == x || tx in rest; }
    }
  }

  /** A signature status only moves from empty to SUBMITTED and from there to MINED or FAILED. */
  predicate SignatureMoves(before: SignatureStatus, after: SignatureStatus) {
    || after == before
    || (before.NoSignature? && after.SignatureSubmitted?)
    || (before.SignatureSubmitted? && (after.SignatureMined? || after.SignatureFailed?))
  }

  /** In every reachable state, every action keeps every row and moves its signature status
      forward or not at all. */
  lemma SignatureStatusForward(ts: Clock, boundary: int, actions: seq<Action>, a: Action, tx: TxId)
    requires tx in Run(ts, boundary, actions).rows
    ensures tx in Apply(ts, Run(ts, boundary, actions), a).rows
    ensures SignatureMoves(Run(ts, boundary, actions).rows[tx].signature,
                           Apply(ts, Run(ts, boundary, actions), a).rows[tx].signature)
  {
    RunInv(ts, boundary, actions);
    hide Run;
    var s := Run(ts, boundary, actions);
    if a.Advance? && a.i < |s.tasks| {
      assert TaskOk(ts, s, s.tasks[a.i]);
    }
  }

  /** The own submitted-write of the transfer may still come. */
  ghost predicate SubmittedWritePending(s: State, tx: TxId) {
    Queued(s, tx) || BeingSigned(s, tx)
  }

  ghost predicate BeingSigned(s: State, tx: TxId) {
    exists i :: 0 <= i < |s.tasks| && s.tasks[i].tx == tx && Signing(s.tasks[i])
  }

  ghost predicate StaysCompleted(ts: Clock, s: State, tx: TxId) {
    forall actions :: tx in Continue(ts, s, actions).rows && Continue(ts, s, actions).rows[tx].status.Completed?
  }

  lemma {:induction false} CompletedStays(ts: Clock, s: State, actions: seq<Action>, tx: TxId)
    requires tx in s.rows && s.rows[tx].status.Completed? && !SubmittedWritePending(s, tx)
    ensures var t := Continue(ts, s, actions);
            tx in t.rows && t.rows[tx].status.Completed? && !SubmittedWritePending(t, tx)
    decreases |actions|
  {
    if actions != [] {
      var before, a := actions[..|actions| - 1], actions[|actions| - 1];
      CompletedStays(ts, s, before, tx);
      CompletedStep(ts, Continue(ts, s, before), a, tx);
    }
  }

  lemma CompletedStep(ts: Clock, s: State, a: Action, tx: TxId)
    requires tx in s.rows && s.rows[tx].status.Completed? && !SubmittedWritePending(s, tx)
    ensures var t := Apply(ts, s, a); tx in t.rows && t.rows[tx].status.Completed? && !SubmittedWritePending(t, tx)
  {
    var t := Apply(ts, s, a);
    if a.Advance? {
      if a.i < |s.tasks| { CompletedAdvance(s, a.i, a.ok, tx); }
    } else {
      hide Step;
      forall i | 0 <= i < |t.tasks| ensures !(t.tasks[i].tx == tx && Signing(t.tasks[i])) {
        assert i < |s.tasks| ==> t.tasks[i] == s.tasks[i];
      }
    }
  }

  lemma CompletedAdvance(s: State, i: nat, ok: bool, tx: TxId)
    requires i < |s.tasks| && tx in s.rows && s.rows[tx].status.Completed? && !SubmittedWritePending(s, tx)
    ensures var t := Step(s, i, ok); tx in t.rows && t.rows[tx].status.Completed? && !SubmittedWritePending(t, tx)
  {
    var t := Step(s, i, ok);
    assert !(s.tasks[i].tx == tx && Signing(s.tasks[i]));
    StepElsewhere(s, i, ok);
    StepTasks(s, i, ok);
    assert !(t.tasks[i].tx == tx && Signing(t.tasks[i]));
    assert !Queued(t, tx);
    forall j | 0 <= j < |t.tasks| ensures !(t.tasks[j].tx == tx && Signing(t.tasks[j])) {
      assert j != i ==> t.tasks[j] == s.tasks[j];
    }
  }

  /** COMPLETED is final exactly when the validator's own submitted-write is not still to
      come: that write stores IN_PROGRESS over whatever status it finds. */
  lemma CompletedIsFinalIff(ts: Clock, s: State, tx: TxId)
    requires tx in s.rows && s.rows[tx].status.Completed?
    ensures StaysCompleted(ts, s, tx) <==> !SubmittedWritePending(s, tx)
  {
    hide Continue, Step;
    if !SubmittedWritePending(s, tx) {
      forall actions
        ensures tx in Continue(ts, s, actions).rows && Continue(ts, s, actions).rows[tx].status.Completed?
      {
        CompletedStays(ts, s, actions, tx);
      }
    } else if BeingSigned(s, tx) {
      ContinueNone(ts, s);
      var i :| 0 <= i < |s.tasks| && s.tasks[i].tx == tx && Signing(s.tasks[i]);
      OverwriteTrace(ts, s, tx, [], i);
    } else {
      ContinueNone(ts, s);
      ContinueExtend(ts, s, [], ProcessNext(tx));
      OverwriteTrace(ts, s, tx, [] + [ProcessNext(tx)], |s.tasks|);
    }
  }

  /** Once the signature is submitted to the topic, the pending write undoes COMPLETED. */
  lemma OverwriteTrace(ts: Clock, s: State, tx: TxId, before: seq<Action>, i: nat)
    requires var t := Continue(ts, s, before);
             tx in t.rows && i < |t.tasks| && t.tasks[i].tx == tx && Signing(t.tasks[i])
    ensures !StaysCompleted(ts, s, tx)
  {
    hide Continue, Step;
    var t, a := Continue(ts, s, before), Advance(i, true);
    SigningAdvance(t, i);
    ContinueExtend(ts, s, before, a);
    ContinueExtend(ts, s, before + [a], a);
    if t.tasks[i].stage.WriteSubmitted? {
      assert !Continue(ts, s, before + [a]).rows[tx].status.Completed?;
    } else {
      var u := Step(t, i, true);
      SigningAdvance(u, i);
      assert !Continue(ts, s, before + [a] + [a]).rows[tx].status.Completed?;
    }
  }

  lemma SigningAdvance(s: State, i: nat)
    requires i < |s.tasks| && Signing(s.tasks[i]) && s.tasks[i].tx in s.rows
    ensures var tx, t := s.tasks[i].tx, Step(s, i, true);
            if s.tasks[i].stage.WriteSubmitted? then tx in t.rows && t.rows[tx].status.InProgress?
            else i < |t.tasks| && t.tasks[i] == Task(tx, WriteSubmitted) && t.rows == s.rows
  {}

  // ----- two runs from the start -----

  /** The first run of the process up to the point where a handler has created the row of a new
      transfer and is about to submit its signature. */
  function Entering(tx: TxId): seq<Action> {
    [StartWatching, Deliver(tx), Advance(0, true), Advance(0, true)]
  }

  lemma EnteringState(ts: Clock, boundary: int, tx: TxId)
    requires boundary < ts(tx)
    ensures Run(ts, boundary, Entering(tx))
            == State(map[tx := Row(Initial, NoSignature)], [Task(tx, Submit)], Watching, boundary, {tx},
                     multiset{tx}, multiset{tx})
  {
    hide Continue, Step;
    var s := Start(boundary);
    var a := Advance(0, true);
    ContinueNone(ts, s);
    ContinueExtend(ts, s, [], StartWatching);
    ContinueExtend(ts, s, [StartWatching], Deliver(tx));
    ContinueExtend(ts, s, [StartWatching, Deliver(tx)], a);
    ContinueExtend(ts, s, [StartWatching, Deliver(tx), a], a);
    assert && [] + [StartWatching] == [StartWatching] && [StartWatching] + [Deliver(tx)] == [StartWatching, Deliver(tx)]
           && [StartWatching, Deliver(tx)] + [a] == [StartWatching, Deliver(tx), a]
           && [StartWatching, Deliver(tx), a] + [a] == Entering(tx);
    var watching := s.(phase := Watching);
    var delivered := Apply(ts, watching, Deliver(tx));
    assert delivered == State(map[], [Task(tx, Lookup)], Watching, boundary, {tx}, multiset{}, multiset{});
    FirstSteps(delivered, tx);
  }

  lemma FirstSteps(s: State, tx: TxId)
    requires s.tasks == [Task(tx, Lookup)] && s.rows == map[] && s.entered == s.ever == multiset{}
    ensures Step(Step(s, 0, true), 0, true)
            == s.(rows := map[tx := Row(Initial, NoSignature)], tasks := [Task(tx, Submit)],
                  entered := multiset{tx}, ever := multiset{tx})
  {}

  /** COMPLETED is not final: the run in which the message handlers of the other validators
      reach the majority between this validator's topic message and its own status write ends
      with IN_PROGRESS written over COMPLETED. */
  lemma CompletedOverwritten(ts: Clock, boundary: int, tx: TxId)
    requires boundary < ts(tx)
    ensures var run := Entering(tx) + [Advance(0, true), Complete(tx)];
            && tx in Run(ts, boundary, run).rows && Run(ts, boundary, run).rows[tx].status.Completed?
            && tx in Run(ts, boundary, run + [Advance(0, true)]).rows
            && Run(ts, boundary, run + [Advance(0, true)]).rows[tx].status.InProgress?
  {
    hide Continue;
    var s, a := Start(boundary), Advance(0, true);
    EnteringState(ts, boundary, tx);
    ContinueExtend(ts, s, Entering(tx), a);
    ContinueExtend(ts, s, Entering(tx) + [a], Complete(tx));
    assert Entering(tx) + [a] + [Complete(tx)] == Entering(tx) + [a, Complete(tx)];
    ContinueExtend(ts, s, Entering(tx) + [a, Complete(tx)], a);
  }

  /** Why delivery must be exactly once: if the watcher handed this transfer on a second time
      before the status left INITIAL, the second handler would process it again. */
  lemma DuplicateDeliveryProcessesTwice(ts: Clock, boundary: int, tx: TxId)
    requires boundary < ts(tx)
    ensures var s := Run(ts, boundary, Entering(tx));
            var again := s.(tasks := s.tasks + [Task(tx, Lookup)]);
            s.entered[tx] == 1 && |s.tasks| == 1 && Step(again, 1, true).entered[tx] == 2
  {
    hide Continue;
    EnteringState(ts, boundary, tx);
  }
}
