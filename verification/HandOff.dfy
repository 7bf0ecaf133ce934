/** The recovery pass at the start of a process and the hand-off to the watchers. */
module HandOff {
  import opened Wrappers
  import opened Int64
  import opened Timestamps
  import opened Watchers

  // ----- the window of the mirror node client -----

  /** Keeps the items of an answer that are earlier than `to`; the first timestamp that does
      not parse makes the whole query fail. */
  method Between(answer: Option<seq<Item>>, to: int64) returns (r: Option<seq<Item>>)
    requires answer.Some? ==> forall item :: item in answer.value ==> FromString(item.consensusTimestamp) != IndexPanic
    ensures r.None? <==> answer.None? || exists item :: item in answer.value && Stamp(item).None?
    ensures r.Some? ==> r.value == Before(answer.value, to)
  {
    hide FromString;
    if answer.None? {
      return None;
    }
    var items := answer.value;
    var res := [];
    for i := 0 to |items|
      invariant res == Before(items[..i], to)
      invariant forall item :: item in items[..i] ==> Stamp(item).Some?
    {
      var ts := Stamp(items[i]);
      if ts.None? {
        assert items[i] in items;
        return None;
      }
      assert items[..i + 1] == items[..i] + [items[i]];
      BeforeAppend(items[..i], [items[i]], to);
      if ts.value < to {
        res := res + [items[i]];
      }
    }
    assert items[..|items|] == items;
    return Some(res);
  }

  lemma {:induction false} BeforeAppend(a: seq<Item>, b: seq<Item>, t: int64)
    ensures Before(a + b, t) == Before(a, t) + Before(b, t)
  {
    hide FromString, Stamp;
    if a == [] {
      assert a + b == b;
    } else {
      assert (a + b)[1..] == a[1..] + b;
      BeforeAppend(a[1..], b, t);
    }
  }

  // ----- the recovery interval -----

  /** A status row as the database returns it. */
  datatype Lookup = Found(t: int64) | NotFound | DatabaseError

  datatype Intervals = Intervals(transfersFrom: int64, messagesFrom: int64, to: int64)

  /** The last recorded timestamp, or zero when there is none. */
  function OrZero(l: Lookup): int64 { if l.Found? then l.t else 0 }

  /** The recovery window: from the configured timestamp if that is positive, and otherwise
      from each watcher's own cursor; a missing row counts as zero, a database error fails. */
  method ComputeIntervals(configured: int64, transfers: Lookup, messages: Lookup, now: int64)
    returns (r: Result<Intervals, string>)
    ensures r.Failure? <==> configured <= 0 && (transfers.DatabaseError? || messages.DatabaseError?)
    ensures r.Success? ==> r.value.to == now
    ensures r.Success? && configured > 0 ==> r.value.transfersFrom == r.value.messagesFrom == configured
    ensures r.Success? && configured <= 0 ==>
              && r.value.transfersFrom == (if transfers.Found? then transfers.t else 0)
              && r.value.messagesFrom == (if messages.Found? then messages.t else 0)
  {
    var transfersFrom, messagesFrom := 0, 0;
    if configured > 0 {
      transfersFrom, messagesFrom := configured, configured;
    } else {
      if transfers.DatabaseError? {
        return Failure("transfer status");
      }
      if messages.DatabaseError? {
        return Failure("message status");
      }
      transfersFrom := OrZero(transfers);
      messagesFrom := OrZero(messages);
    }
    r := Success(Intervals(transfersFrom, messagesFrom, now));
  }

  /** What the recovery pass takes, given the mirror node's answer to its one query. The pass
      is skipped when there is no earlier transfer cursor. */
  function Recovered(transfersFrom: int64, answer: seq<Item>, to: int64): seq<Item> {
    if transfersFrom <= 0 then [] else Before(answer, to)
  }

  // ----- hand-off -----

  /** The ledger after `from` is cut into the window, the entry stamped `to`, and the rest. */
  lemma {:induction false} WindowPartition(ledger: seq<Item>, from: int64, to: int64)
    requires Ascending(ledger) && from < to
    ensures After(ledger, from) == Before(After(ledger, from), to) + At(ledger, to) + After(ledger, to)
  {
    hide FromString;
    if ledger != [] {
      WindowPartition(ledger[1..], from, to);
      if Stamp(ledger[0]).value >= to { PartitionAfter(ledger, from, to); } else { PartitionBefore(ledger, from, to); }
    }
  }

  lemma PartitionAfter(ledger: seq<Item>, from: int64, to: int64)
    requires Ascending(ledger) && ledger != [] && from < to <= Stamp(ledger[0]).value
    ensures After(ledger, from) == Before(After(ledger, from), to) + At(ledger, to) + After(ledger, to)
  {
    hide FromString, Stamp, Before, After, At;
    AllAfter(ledger, from);
    BeforeNone(ledger, to);
    FirstHere(ledger, to);
  }

  /** A ledger that starts no earlier than `to` is the entry stamped `to`, if there is one, and
      what is later. */
  lemma FirstHere(ledger: seq<Item>, to: int64)
    requires Ascending(ledger) && ledger != [] && to <= Stamp(ledger[0]).value
    ensures ledger == At(ledger, to) + After(ledger, to)
  {
    hide FromString, Stamp;
    var x, rest := ledger[0], ledger[1..];
    assert ledger == [x] + rest;
    AllAfter(rest, to);
    NoneAt(rest, to);
    if Stamp(x).value == to {
      assert At(ledger, to) == [x] && After(ledger, to) == rest;
    } else {
      assert At(ledger, to) == [] && After(ledger, to) == ledger;
    }
  }

  lemma PartitionBefore(ledger: seq<Item>, from: int64, to: int64)
    requires Ascending(ledger) && ledger != [] && Stamp(ledger[0]).value < to
    requires var rest := ledger[1..];
             After(rest, from) == Before(After(rest, from), to) + At(rest, to) + After(rest, to)
    ensures After(ledger, from) == Before(After(ledger, from), to) + At(ledger, to) + After(ledger, to)
  {
    hide FromString;
    var x, rest := ledger[0], ledger[1..];
    var head := if LaterThan(x, from) then [x] else [];
    assert After(ledger, from) == head + After(rest, from);
    assert At(ledger, to) == At(rest, to) && After(ledger, to) == After(rest, to);
    assert Before(head, to) == head;
    BeforeAppend(head, After(rest, from), to);
    Regroup(head, Before(After(rest, from), to), At(rest, to), After(rest, to));
  }

  lemma Regroup(a: seq<Item>, b: seq<Item>, c: seq<Item>, d: seq<Item>)
    ensures a + (b + c + d) == (a + b) + c + d
  {}

  lemma {:induction false} AllAfter(items: seq<Item>, t: int64)
    requires forall i :: 0 <= i < |items| ==> Stamp(items[i]).Some? && Stamp(items[i]).value > t
    ensures After(items, t) == items
  {
    hide FromString, Stamp;
    if items != [] {
      AllAfter(items[1..], t);
      assert items == [items[0]] + items[1..];
    }
  }

  lemma {:induction false} NoneAt(items: seq<Item>, t: int64)
    requires forall i :: 0 <= i < |items| ==> Stamp(items[i]).Some? && Stamp(items[i]).value > t
    ensures At(items, t) == []
  {
    hide FromString, Stamp;
    if items != [] { NoneAt(items[1..], t); }
  }

  lemma {:induction false} BeforeNone(items: seq<Item>, to: int64)
    requires forall i :: 0 <= i < |items| ==> Stamp(items[i]).Some? && Stamp(items[i]).value >= to
    ensures Before(items, to) == []
  {
    hide FromString;
    if items != [] { BeforeNone(items[1..], to); }
  }

  /** Hand-off, for recovery that takes a beginning of its window: recovery and everything
      after `to` are together the whole ledger after `from`, each entry once and in order, if
      and only if recovery took the whole window and no entry is stamped exactly `to`. */
  lemma HandOffIff(ledger: seq<Item>, from: int64, to: int64, recovered: seq<Item>)
    requires Ascending(ledger) && from < to && recovered <= Before(After(ledger, from), to)
    ensures recovered + After(ledger, to) == After(ledger, from)
            <==> recovered == Before(After(ledger, from), to) && At(ledger, to) == []
  {
    hide FromString;
    WindowPartition(ledger, from, to);
    if recovered + After(ledger, to) == After(ledger, from) {
      assert |recovered| == |Before(After(ledger, from), to)| && |At(ledger, to)| == 0;
    }
  }

  /** Hand-off as the watchers perform it: after any number of iterations, page sizes and
      errors, what recovery took and what a watcher has handed on since are a gap-free,
      duplicate-free beginning of the ledger after `from` if and only if recovery took the
      whole window and no entry is stamped exactly `to`. Otherwise that entry, or the rest of
      the window, is the gap, and with it put in there is none. */
  lemma HandOffRun(ledger: seq<Item>, from: int64, to: int64, recovered: seq<Item>, mirror: Mirror, n: nat)
    requires Ascending(ledger) && from < to && recovered <= Before(After(ledger, from), to)
    requires Honest(mirror, ledger)
    ensures Joins(ledger, from, to, recovered, Polled(TransferPoll, mirror, Cursor(to, to, [], false), n))
    ensures Joins(ledger, from, to, recovered, Polled(MessagePoll, mirror, Cursor(to, to, [], false), n))
  {
    hide FromString;
    TransfersExactlyOnce(mirror, ledger, to, n);
    MessagesExactlyOnce(mirror, ledger, to, n);
    FollowingJoins(ledger, from, to, recovered, Polled(TransferPoll, mirror, Cursor(to, to, [], false), n));
    FollowingJoins(ledger, from, to, recovered, Polled(MessagePoll, mirror, Cursor(to, to, [], false), n));
  }

  /** How what recovery took and what a watcher handed on fit together. */
  predicate Joins(ledger: seq<Item>, from: int64, to: int64, recovered: seq<Item>, c: Cursor) {
    var window := Before(After(ledger, from), to);
    && (c.handed != [] ==>
          (recovered + c.handed <= After(ledger, from) <==> recovered == window && At(ledger, to) == []))
    && window + At(ledger, to) + c.handed <= After(ledger, from)
  }

  lemma FollowingJoins(ledger: seq<Item>, from: int64, to: int64, recovered: seq<Item>, c: Cursor)
    requires Ascending(ledger) && from < to && recovered <= Before(After(ledger, from), to)
    requires Following(c, ledger, to)
    ensures Joins(ledger, from, to, recovered, c)
  {
    hide FromString, Stamp, After, At, Before;
    WindowPartition(ledger, from, to);
    var all, window, middle := After(ledger, from), Before(After(ledger, from), to), At(ledger, to);
    assert all == (window + middle) + After(ledger, to);
    if c.handed != [] && recovered + c.handed <= all {
      // the first item handed on stands at its own place in the ledger
      var k := |recovered|;
      assert all[k] == (recovered + c.handed)[k] == c.handed[0] == After(ledger, to)[0];
      if k < |window + middle| {
        assert all[k] == (window + middle)[k];
        NotLater(ledger, from, to, k);
        LaterHere(ledger, to);
        assert false;
      }
    }
  }

  /** The entries of the window, and the one stamped `to`, are not later than `to`. */
  lemma NotLater(ledger: seq<Item>, from: int64, to: int64, k: nat)
    requires k < |Before(After(ledger, from), to) + At(ledger, to)|
    ensures !LaterThan((Before(After(ledger, from), to) + At(ledger, to))[k], to)
  {
    hide FromString, Stamp;
    BeforeIsBefore(After(ledger, from), to);
    AtIsAt(ledger, to);
  }

  lemma {:induction false} BeforeIsBefore(items: seq<Item>, to: int64)
    ensures forall x :: x in Before(items, to) ==> Stamp(x).Some? && Stamp(x).value < to
  {
    hide FromString, Stamp;
    if items != [] { BeforeIsBefore(items[1..], to); }
  }

  lemma {:induction false} AtIsAt(ledger: seq<Item>, to: int64)
    ensures forall x :: x in At(ledger, to) ==> Stamp(x) == Some(to)
  {
    hide FromString, Stamp;
    if ledger != [] { AtIsAt(ledger[1..], to); }
  }

  lemma {:induction false} LaterHere(ledger: seq<Item>, to: int64)
    ensures forall x :: x in After(ledger, to) ==> LaterThan(x, to)
  {
    hide FromString, Stamp;
    if ledger != [] { LaterHere(ledger[1..], to); }
  }

  /** The entry stamped exactly `to` is lost for every `to`: with this ledger neither recovery
      nor a watcher ever takes anything. */
  lemma BoundaryEntryLost(from: int64, to: int64, payload: string)
    requires from < to
    ensures var ledger := [Item(String(to), payload)];
            Ascending(ledger) && After(ledger, from) == ledger && Before(ledger, to) == [] && After(ledger, to) == []
  {
    hide FromString;
    RoundTrip(to);
    var ledger := [Item(String(to), payload)];
    assert ledger[1..] == [];
  }

  /** Whatever the mirror node answers, recovery takes a beginning of its window. */
  lemma RecoveredBegins(ledger: seq<Item>, from: int64, to: int64, transfersFrom: int64, answer: seq<Item>)
    requires answer <= After(ledger, from)
    ensures Recovered(transfersFrom, answer, to) <= Before(After(ledger, from), to)
  {
    hide FromString, Stamp;
    var all := After(ledger, from);
    assert all == answer + all[|answer|..];
    BeforeAppend(answer, all[|answer|..], to);
  }

  /** Recovery misses nothing of a ledger's window: it was not skipped by the transfer cursor, or
      had nothing to take there, and the mirror node's one answer reached the window's end. */
  predicate Reaches(ledger: seq<Item>, from: int64, to: int64, transfersFrom: int64, answer: seq<Item>)
    requires answer <= After(ledger, from)
  {
    if transfersFrom <= 0 then Before(After(ledger, from), to) == []
    else Before(After(ledger, from)[|answer|..], to) == []
  }

  /** The window of one ledger, of transfers or of messages, is taken whole exactly when the
      pass was not skipped, or had nothing to take there, and the answer reached its end. The
      pass is skipped for both ledgers by the transfer cursor alone. */
  lemma CoversIff(ledger: seq<Item>, from: int64, to: int64, transfersFrom: int64, answer: seq<Item>)
    requires Ascending(ledger) && from < to && answer <= After(ledger, from)
    ensures Recovered(transfersFrom, answer, to) == Before(After(ledger, from), to)
            <==> Reaches(ledger, from, to, transfersFrom, answer)
  {
    hide FromString, Stamp;
    var all := After(ledger, from);
    assert all == answer + all[|answer|..];
    BeforeAppend(answer, all[|answer|..], to);
    if transfersFrom > 0 && Before(answer, to) == Before(all, to) {
      assert |Before(all[|answer|..], to)| == 0;
    }
  }

  /** The whole hand-off of one start of the process, for transfers or for messages: whatever
      the mirror node answers to recovery and to the watcher afterwards, once the watcher has
      handed something on, what was recovered and what was handed on are a gap-free,
      duplicate-free beginning of the ledger after `from` if and only if recovery missed
      nothing and no entry is stamped exactly `to`. */
  lemma StartIff(ledger: seq<Item>, from: int64, to: int64, transfersFrom: int64, answer: seq<Item>,
                 mirror: Mirror, n: nat)
    requires Ascending(ledger) && from < to && answer <= After(ledger, from) && Honest(mirror, ledger)
    ensures var recovered := Recovered(transfersFrom, answer, to);
            var complete := Reaches(ledger, from, to, transfersFrom, answer) && At(ledger, to) == [];
            var transfers := Polled(TransferPoll, mirror, Cursor(to, to, [], false), n).handed;
            var messages := Polled(MessagePoll, mirror, Cursor(to, to, [], false), n).handed;
            && (transfers != [] ==> (recovered + transfers <= After(ledger, from) <==> complete))
            && (messages != [] ==> (recovered + messages <= After(ledger, from) <==> complete))
  {
    hide FromString, Stamp, After, At, Before, Recovered, Polled;
    RecoveredBegins(ledger, from, to, transfersFrom, answer);
    CoversIff(ledger, from, to, transfersFrom, answer);
    HandOffRun(ledger, from, to, Recovered(transfersFrom, answer, to), mirror, n);
  }

  /** Messages are lost when there is a message cursor but no transfer cursor: a message
      stamped inside the message window is taken neither by recovery, however much the mirror
      node answers, nor by the watcher that starts at the end of the window. */
  lemma MessagesLost(messagesFrom: int64, stamp: int64, to: int64, payload: string)
    requires 0 < messagesFrom < stamp < to
    ensures var ledger := [Item(String(stamp), payload)];
            && Ascending(ledger) && After(ledger, messagesFrom) == ledger == Before(ledger, to)
            && Recovered(OrZero(NotFound), After(ledger, messagesFrom), to) + After(ledger, to) == []
  {
    hide FromString;
    RoundTrip(stamp);
    var ledger := [Item(String(stamp), payload)];
    assert ledger[1..] == [];
  }

  /** A restart loses nothing: what one process handed on, what the next one recovers from
      the stored cursor, and what its watchers hand on later, follow each other in the ledger
      after the first start cursor, up to the entry stamped exactly at the second start. */
  lemma RestartResumes(ledger: seq<Item>, start: int64, c: Cursor, to: int64, recovered: seq<Item>)
    requires Ascending(ledger) && Following(c, ledger, start) && c.stored < to
    requires recovered == Before(After(ledger, c.stored), to)
    ensures c.handed + recovered + At(ledger, to) + After(ledger, to) == After(ledger, start)
  {
    hide FromString, Stamp, After, At, Before;
    WindowPartition(ledger, c.stored, to);
    var all, m := After(ledger, start), |c.handed|;
    assert After(ledger, c.stored) == all[m..] by { StoredSplits(ledger, start, c); }
    Regroup(c.handed, recovered, At(ledger, to), After(ledger, to));
    assert all == c.handed + all[m..];
  }

  /** The stored cursor of a following watcher cuts the ledger after what it handed on. */
  lemma StoredSplits(ledger: seq<Item>, start: int64, c: Cursor)
    requires Ascending(ledger) && Following(c, ledger, start)
    ensures After(ledger, c.stored) == After(ledger, start)[|c.handed|..]
  {
    hide FromString, Stamp;
    var m := |c.handed|;
    if m > 0 {
      assert After(ledger, start)[m - 1] == c.handed[m - 1];
      AfterContinues(ledger, start, m);
    }
  }
}
