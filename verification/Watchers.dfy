/** The two polling watchers and the recovery window of the mirror node client: which ledger
    entries are handed on, how often, and where the persisted cursor stands. */
module Watchers {
  import opened Wrappers
  import opened Int64
  import opened Timestamps

  /** A ledger entry as the mirror node reports it: a transaction or a topic message. */
  datatype Item = Item(consensusTimestamp: string, payload: string)

  function Stamp(item: Item): Option<int64> {
    match FromString(item.consensusTimestamp)
    case Parsed(t) => Some(t)
    case _ => None
  }

  predicate LaterThan(item: Item, t: int64) { Stamp(item).Some? && Stamp(item).value > t }

  /** A ledger: timestamps parse and strictly ascend. */
  predicate Ascending(ledger: seq<Item>) {
    && (forall i :: 0 <= i < |ledger| ==> Stamp(ledger[i]).Some?)
    && (forall i, j :: 0 <= i < j < |ledger| ==> Stamp(ledger[i]).value < Stamp(ledger[j]).value)
  }

  /** The entries later than `t`. */
  function After(ledger: seq<Item>, t: int64): seq<Item> {
    if ledger == [] then []
    else (if LaterThan(ledger[0], t) then [ledger[0]] else []) + After(ledger[1..], t)
  }

  /** The entries stamped exactly `t`. */
  function At(ledger: seq<Item>, t: int64): seq<Item> {
    if ledger == [] then []
    else (if Stamp(ledger[0]) == Some(t) then [ledger[0]] else []) + At(ledger[1..], t)
  }

  /** The entries earlier than `t`. */
  function Before(ledger: seq<Item>, t: int64): seq<Item> {
    if ledger == [] then []
    else (if Stamp(ledger[0]).Some? && Stamp(ledger[0]).value < t then [ledger[0]] else []) + Before(ledger[1..], t)
  }

  // ----- the watchers -----

  /** A watcher's local cursor, its row in the status table, and what it has handed on. A
      timestamp text without a dot makes the parser index past its input: the process dies. */
  datatype Cursor = Cursor(local: int64, stored: int64, handed: seq<Item>, crashed: bool)

  /** What the mirror node answers to the k-th query, given the cursor; `None` is an error. */
  type Mirror = (nat, int64) -> Option<seq<Item>>

  /** One iteration of the transfer watcher: all items of a page are handed on, and the cursor
      follows the last one. A query error restarts the watcher from the stored cursor. */
  function TransferPoll(c: Cursor, answer: Option<seq<Item>>): Cursor {
    match answer
    case None => c.(local := c.stored)
    case Some(page) =>
      if page == [] then c
      else
        match FromString(page[|page| - 1].consensusTimestamp)
        case Parsed(t) => Cursor(t, t, c.handed + page, false)
        case IndexPanic => c.(handed := c.handed + page, crashed := true)
        case _ => c.(local := 0, handed := c.handed + page)
  }

  /** One message of a page: it is handed on and the stored cursor follows it; a message whose
      timestamp does not parse is skipped and resets the local cursor. */
  function MessageStep(c: Cursor, item: Item): Cursor {
    match FromString(item.consensusTimestamp)
    case Parsed(t) => Cursor(t, t, c.handed + [item], false)
    case IndexPanic => c.(crashed := true)
    case _ => c.(local := 0)
  }

  function MessagePage(c: Cursor, page: seq<Item>): Cursor
    decreases |page|
  {
    if page == [] then c
    else
      var before := MessagePage(c, page[..|page| - 1]);
      if before.crashed then before else MessageStep(before, page[|page| - 1])
  }

  function MessagePoll(c: Cursor, answer: Option<seq<Item>>): Cursor {
    match answer
    case None => c.(local := c.stored)
    case Some(page) => MessagePage(c, page)
  }

  /** A watcher's cursor after n iterations. */
  function Polled(poll: (Cursor, Option<seq<Item>>) -> Cursor, mirror: Mirror, start: Cursor, n: nat): Cursor {
    if n == 0 then start
    else
      var c := Polled(poll, mirror, start, n - 1);
      if c.crashed then c else poll(c, mirror(n - 1, c.local))
  }

  /** A watcher of transfers: its status row and the transactions it has started handling. */
  class TransferWatcher {
    var stored: Option<int64>
    var handed: seq<Item>
    var crashed: bool

    constructor (stored: Option<int64>)
      ensures this.stored == stored && handed == [] && !crashed
    {
      this.stored, handed, crashed := stored, [], false;
    }

    /** Sets the status row to the start timestamp, creating it when there is none. */
    method Watch(startTimestamp: int64)
      modifies this`stored
      ensures stored == Some(startTimestamp)
    {
      if stored.None? {
        stored := Some(startTimestamp);
      } else {
        stored := stored.(value := startTimestamp);
      }
    }

    /** Polls `n` times, starting from the stored cursor. */
    method BeginWatching(mirror: Mirror, n: nat) returns (milestoneTimestamp: int64)
      requires stored.Some? && !crashed
      modifies this
      ensures stored.Some?
      ensures Cursor(milestoneTimestamp, stored.value, handed, crashed)
              == Polled(TransferPoll, mirror, Cursor(old(stored.value), old(stored.value), old(handed), false), n)
    {
      hide FromString;
      ghost var start := Cursor(stored.value, stored.value, handed, false);
      milestoneTimestamp := stored.value;
      for k := 0 to n
        invariant stored.Some?
        invariant Cursor(milestoneTimestamp, stored.value, handed, crashed) == Polled(TransferPoll, mirror, start, k)
      {
        if crashed {
          continue;
        }
        var answer := mirror(k, milestoneTimestamp);
        if answer.None? {
          milestoneTimestamp := stored.value;
          continue;
        }
        var transactions := answer.value;
        if |transactions| > 0 {
          handed := handed + transactions;
          match FromString(transactions[|transactions| - 1].consensusTimestamp) {
            case Parsed(t) =>
              milestoneTimestamp := t;
              stored := Some(milestoneTimestamp);
            case IndexPanic => crashed := true;
            case _ => milestoneTimestamp := 0;
          }
        }
      }
    }
  }

  /** A watcher of topic messages. */
  class MessageWatcher {
    var stored: Option<int64>
    var handed: seq<Item>
    var crashed: bool

    constructor (stored: Option<int64>)
      ensures this.stored == stored && handed == [] && !crashed
    {
      this.stored, handed, crashed := stored, [], false;
    }

    /** Polls `n` times, starting from the stored cursor and storing it for every message. */
    method BeginWatching(mirror: Mirror, n: nat) returns (milestoneTimestamp: int64)
      requires stored.Some? && !crashed
      modifies this
      ensures stored.Some?
      ensures Cursor(milestoneTimestamp, stored.value, handed, crashed)
              == Polled(MessagePoll, mirror, Cursor(old(stored.value), old(stored.value), old(handed), false), n)
    {
      hide FromString;
      ghost var start := Cursor(stored.value, stored.value, handed, false);
      milestoneTimestamp := stored.value;
      for k := 0 to n
        invariant stored.Some?
        invariant Cursor(milestoneTimestamp, stored.value, handed, crashed) == Polled(MessagePoll, mirror, start, k)
      {
        if crashed {
          continue;
        }
        ghost var c := Polled(MessagePoll, mirror, start, k);
        var answer := mirror(k, milestoneTimestamp);
        if answer.None? {
          milestoneTimestamp := stored.value;
          continue;
        }
        var messages := answer.value;
        for i := 0 to |messages|
          invariant stored.Some?
          invariant Cursor(milestoneTimestamp, stored.value, handed, crashed) == MessagePage(c, messages[..i])
        {
          assert messages[..i + 1][..i] == messages[..i];
          if crashed {
            continue;
          }
          match FromString(messages[i].consensusTimestamp) {
            case Parsed(t) =>
              milestoneTimestamp := t;
              handed := handed + [messages[i]];
              stored := Some(milestoneTimestamp);
            case IndexPanic => crashed := true;
            case _ => milestoneTimestamp := 0;
          }
        }
        assert messages[..|messages|] == messages;
      }
    }
  }

  // ----- answers that are no beginning of the ledger -----

  /** The transfer watcher's iteration, answer by answer: an error goes back to the stored cursor;
      an empty page changes nothing; otherwise all items are handed on, and the last one's
      timestamp becomes both cursors, or the local cursor falls to zero when it does not
      parse, or the process dies when it has no dot. */
  lemma TransferAnswers(c: Cursor, page: seq<Item>, last: Item)
    ensures TransferPoll(c, None) == Cursor(c.stored, c.stored, c.handed, c.crashed)
    ensures TransferPoll(c, Some([])) == c
    ensures var d, handed := TransferPoll(c, Some(page + [last])), c.handed + (page + [last]);
            match FromString(last.consensusTimestamp)
            case Parsed(t) => d == Cursor(t, t, handed, false)
            case InvalidSeconds => d == Cursor(0, c.stored, handed, c.crashed)
            case InvalidNanos => d == Cursor(0, c.stored, handed, c.crashed)
            case IndexPanic => d == Cursor(c.local, c.stored, handed, true)
  {
    hide FromString;
    assert (page + [last])[|page + [last]| - 1] == last;
  }

  /** The message watcher's iteration for a page that ends with a message: the messages before it
      come first; a message whose timestamp does not parse is not handed on. */
  lemma MessageAnswers(c: Cursor, page: seq<Item>, last: Item)
    ensures MessagePoll(c, None) == Cursor(c.stored, c.stored, c.handed, c.crashed)
    ensures MessagePoll(c, Some([])) == c
    ensures var before, d := MessagePoll(c, Some(page)), MessagePoll(c, Some(page + [last]));
            if before.crashed then d == before
            else
              match FromString(last.consensusTimestamp)
              case Parsed(t) => d == Cursor(t, t, before.handed + [last], false)
              case InvalidSeconds => d == Cursor(0, before.stored, before.handed, false)
              case InvalidNanos => d == Cursor(0, before.stored, before.handed, false)
              case IndexPanic => d == Cursor(before.local, before.stored, before.handed, true)
  {
    hide FromString;
    assert (page + [last])[..|page|] == page;
  }

  // ----- exactly-once polling -----

  /** Every answer is a prefix of the ledger after the cursor: any page size, any growth of
      the ledger between queries, any error. */
  ghost predicate Honest(mirror: Mirror, ledger: seq<Item>) {
    forall k, t :: mirror(k, t).Some? ==> mirror(k, t).value <= After(ledger, t)
  }

  /** The handed-on items are a gap-free, duplicate-free beginning of the ledger after `t`,
      and both cursors stand at the last of them. */
  predicate Following(c: Cursor, ledger: seq<Item>, t: int64) {
    && c.handed <= After(ledger, t)
    && c.local == c.stored
    && !c.crashed
    && (if c.handed == [] then c.local == t else Stamp(c.handed[|c.handed| - 1]) == Some(c.local))
  }

  lemma {:induction false} AfterIsSuffix(ledger: seq<Item>, t: int64) returns (k: nat)
    requires Ascending(ledger)
    ensures k <= |ledger| && After(ledger, t) == ledger[k..]
    ensures forall i :: 0 <= i < k ==> Stamp(ledger[i]).value <= t
    ensures forall i :: k <= i < |ledger| ==> Stamp(ledger[i]).value > t
  {
    hide FromString;
    if ledger == [] {
      k := 0;
    } else {
      var rest := AfterIsSuffix(ledger[1..], t);
      if LaterThan(ledger[0], t) {
        k := 0;
        assert rest == 0;
        assert ledger == [ledger[0]] + ledger[1..];
      } else {
        k := rest + 1;
        assert ledger[1..][rest..] == ledger[k..];
        forall i | 0 <= i < k ensures Stamp(ledger[i]).value <= t { assert i > 0 ==> ledger[i] == ledger[1..][i - 1]; }
        forall i | k <= i < |ledger| ensures Stamp(ledger[i]).value > t { assert ledger[i] == ledger[1..][i - 1]; }
      }
    }
  }

  /** What follows the n-th entry after `t` is what follows its timestamp. */
  lemma AfterContinues(ledger: seq<Item>, t: int64, n: nat)
    requires Ascending(ledger) && 0 < n <= |After(ledger, t)|
    ensures Stamp(After(ledger, t)[n - 1]).Some?
    ensures After(ledger, Stamp(After(ledger, t)[n - 1]).value) == After(ledger, t)[n..]
  {
    hide FromString, Stamp;
    var k := AfterIsSuffix(ledger, t);
    assert After(ledger, t)[n - 1] == ledger[k + n - 1];
    var u := Stamp(ledger[k + n - 1]).value;
    var j := AfterIsSuffix(ledger, u);
    assert j > k + n - 1 by { assert Stamp(ledger[k + n - 1]).value <= u; }
    assert j <= k + n by {
      if k + n < |ledger| { assert Stamp(ledger[k + n]).value > u; }
    }
    assert ledger[k..][n..] == ledger[k + n..];
  }

  /** A page taken after a following cursor extends the beginning that was handed on. */
  lemma PageContinues(c: Cursor, page: seq<Item>, ledger: seq<Item>, t: int64)
    requires Ascending(ledger) && Following(c, ledger, t) && page <= After(ledger, c.local)
    ensures c.handed + page <= After(ledger, t)
    ensures page != [] ==> Stamp(page[|page| - 1]).Some?
  {
    hide FromString, Stamp;
    var all, m := After(ledger, t), |c.handed|;
    assert After(ledger, c.local) == all[m..] by {
      if m > 0 {
        assert all[m - 1] == c.handed[m - 1];
        AfterContinues(ledger, t, m);
      }
    }
    PrefixJoin(all, c.handed, page);
    if page != [] {
      assert (c.handed + page)[m + |page| - 1] == page[|page| - 1];
      assert all[m + |page| - 1] == page[|page| - 1];
      AfterContinues(ledger, t, m + |page|);
    }
  }

  lemma PrefixJoin(all: seq<Item>, a: seq<Item>, b: seq<Item>)
    requires a <= all && b <= all[|a|..]
    ensures a + b <= all
  {
    assert all == a + all[|a|..];
  }

  lemma TransferPollFollows(c: Cursor, answer: Option<seq<Item>>, ledger: seq<Item>, t: int64)
    requires Ascending(ledger) && Following(c, ledger, t)
    requires answer.Some? ==> answer.value <= After(ledger, c.local)
    ensures Following(TransferPoll(c, answer), ledger, t)
  {
    hide FromString;
    if answer.Some? && answer.value != [] {
      PageContinues(c, answer.value, ledger, t);
      var d := TransferPoll(c, answer);
      assert d.handed[|d.handed| - 1] == answer.value[|answer.value| - 1];
    }
  }

  lemma {:induction false} MessagePageFollows(c: Cursor, page: seq<Item>, ledger: seq<Item>, t: int64)
    requires Ascending(ledger) && Following(c, ledger, t) && page <= After(ledger, c.local)
    ensures Following(MessagePage(c, page), ledger, t) && MessagePage(c, page).handed == c.handed + page
    decreases |page|
  {
    hide FromString;
    if page != [] {
      var n := |page| - 1;
      assert page[..n] <= After(ledger, c.local);
      MessagePageFollows(c, page[..n], ledger, t);
      PageContinues(c, page, ledger, t);
      var d := MessagePage(c, page);
      assert d.handed == c.handed + page;
    }
  }

  /** Exactly-once polling for transfers: after any number of iterations the watcher has
      handed on a beginning of the ledger after the start cursor, without gap or repetition,
      and its stored cursor equals the local one it queries with. */
  lemma {:induction false} TransfersExactlyOnce(mirror: Mirror, ledger: seq<Item>, t: int64, n: nat)
    requires Ascending(ledger) && Honest(mirror, ledger)
    ensures Following(Polled(TransferPoll, mirror, Cursor(t, t, [], false), n), ledger, t)
  {
    hide FromString, TransferPoll, Stamp;
    if n > 0 {
      TransfersExactlyOnce(mirror, ledger, t, n - 1);
      var c := Polled(TransferPoll, mirror, Cursor(t, t, [], false), n - 1);
      TransferPollFollows(c, mirror(n - 1, c.local), ledger, t);
    }
  }

  /** Exactly-once polling for messages, whose cursor moves with every message. */
  lemma {:induction false} MessagesExactlyOnce(mirror: Mirror, ledger: seq<Item>, t: int64, n: nat)
    requires Ascending(ledger) && Honest(mirror, ledger)
    ensures Following(Polled(MessagePoll, mirror, Cursor(t, t, [], false), n), ledger, t)
  {
    hide FromString, MessagePage, Stamp;
    if n > 0 {
      MessagesExactlyOnce(mirror, ledger, t, n - 1);
      var c := Polled(MessagePoll, mirror, Cursor(t, t, [], false), n - 1);
      var answer := mirror(n - 1, c.local);
      if answer.Some? { MessagePageFollows(c, answer.value, ledger, t); }
    }
  }
}
