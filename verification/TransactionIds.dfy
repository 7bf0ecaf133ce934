/** Hedera transaction ids: `account@seconds.nanos`, with `?scheduled` appended for the
    inner transaction of a schedule, and the `account-seconds-nanos` form of the mirror node. */
module TransactionIds {
  import opened Text
  import opened Wrappers
  import Int64
  import Timestamps

  /** The mirror node's key for an id; `None` where the Go code indexes a missing part. */
  function ToMirrorNodeTransactionID(txId: string): Option<string> {
    var unscheduled := Split(txId, '?')[0];
    var parts := Split(unscheduled, '@');
    if |parts| < 2 then None
    else
      var time := Split(parts[1], '.');
      if |time| < 2 then None
      else Some(parts[0] + "-" + Pad9(time[0]) + "-" + Pad9(time[1]))
  }

  datatype HederaTransactionID = HederaTransactionID(accountId: string, seconds: string, nanos: string) {
    function String(): string { accountId + "-" + seconds + "-" + nanos }

    function Timestamp(): string { seconds + "." + nanos }
  }

  /** The structured form the SDK's text is converted to. */
  function FromHederaTransactionID(txId: string): Option<HederaTransactionID> {
    var parts := Split(txId, '@');
    if |parts| < 2 then None
    else
      var time := Split(parts[1], '.');
      if |time| < 2 then None
      else Some(HederaTransactionID(parts[0], Pad9(time[0]), Pad9(time[1])))
  }

  /** On every unscheduled text the two conversions agree, malformed texts included. */
  lemma ConversionsAgree(txId: string)
    requires '?' !in txId
    ensures ToMirrorNodeTransactionID(txId)
            == match FromHederaTransactionID(txId) case None => None case Some(id) => Some(id.String())
  {
    SplitNone(txId, '?');
    var id := FromHederaTransactionID(txId);
    if id.Some? {
      assert id.value.String() == id.value.accountId + "-" + id.value.seconds + "-" + id.value.nanos;
    }
  }

  /** The scheduled transaction of a schedule has the key of the transaction that created it. */
  lemma ScheduledSuffixIgnored(txId: string, suffix: string)
    requires '?' !in txId
    ensures ToMirrorNodeTransactionID(txId + "?" + suffix) == ToMirrorNodeTransactionID(txId)
  {
    SplitFirst(txId, '?', suffix);
    SplitNone(txId, '?');
  }

  /** The fields of a well-formed id: a dotted account and two digit strings. */
  predicate WellFormed(account: string, seconds: string, nanos: string) {
    && '@' !in account && '?' !in account && '-' !in account
    && AllDigits(seconds) && AllDigits(nanos)
  }

  function IdText(account: string, seconds: string, nanos: string): string {
    account + "@" + seconds + "." + nanos
  }

  function Key(account: string, seconds: string, nanos: string): string {
    account + "-" + Pad9(seconds) + "-" + Pad9(nanos)
  }

  lemma KeyOf(account: string, seconds: string, nanos: string)
    requires WellFormed(account, seconds, nanos)
    ensures ToMirrorNodeTransactionID(IdText(account, seconds, nanos)) == Some(Key(account, seconds, nanos))
  {
    var time := seconds + "." + nanos;
    var text := IdText(account, seconds, nanos);
    assert text == account + "@" + time;
    assert '?' !in text;
    SplitNone(text, '?');
    SplitTwo(account, '@', time);
    SplitTwo(seconds, '.', nanos);
  }

  /** The form of the mirror node's keys: account, seconds and nanos with dashes between them,
      each number written with at least nine digits. */
  lemma KeyForm(account: string, seconds: string, nanos: string) returns (x: string, y: string)
    requires WellFormed(account, seconds, nanos)
    ensures ToMirrorNodeTransactionID(account + "@" + seconds + "." + nanos) == Some(account + "-" + x + "-" + y)
    ensures AllDigits(x) && Value(x) == Value(seconds) && |x| == if |seconds| < 9 then 9 else |seconds|
    ensures AllDigits(y) && Value(y) == Value(nanos) && |y| == if |nanos| < 9 then 9 else |nanos|
  {
    hide Split, ToMirrorNodeTransactionID;
    x, y := Pad9(seconds), Pad9(nanos);
    KeyOf(account, seconds, nanos);
    PadValue(seconds);
    PadValue(nanos);
  }

  /** An id without an '@', or without a dot after it, has no key. */
  lemma Malformed(account: string, time: string)
    requires '@' !in account && '?' !in account && '@' !in time && '?' !in time && '.' !in time
    ensures ToMirrorNodeTransactionID(account) == None && FromHederaTransactionID(account) == None
    ensures ToMirrorNodeTransactionID(account + "@" + time) == None
    ensures FromHederaTransactionID(account + "@" + time) == None
  {
    SplitNone(account, '?');
    SplitNone(account, '@');
    SplitNone(account + "@" + time, '?');
    SplitTwo(account, '@', time);
    SplitNone(time, '.');
  }

  /** Missing leading zeros in the nanos do not matter: two ids of one account and second
      whose nanos are the same number, written with at most nine digits, have one key. */
  lemma LeadingZerosIgnored(account: string, seconds: string, nanos: string, nanos': string)
    requires WellFormed(account, seconds, nanos) && WellFormed(account, seconds, nanos')
    requires |nanos| <= 9 && |nanos'| <= 9 && Value(nanos) == Value(nanos')
    ensures ToMirrorNodeTransactionID(IdText(account, seconds, nanos))
            == ToMirrorNodeTransactionID(IdText(account, seconds, nanos'))
  {
    KeyOf(account, seconds, nanos);
    KeyOf(account, seconds, nanos');
    PadValue(nanos);
    PadValue(nanos');
    SameLengthSameValue(Pad9(nanos), Pad9(nanos'));
  }

  /** The key determines the account and both numbers. */
  lemma KeyInjective(account: string, seconds: string, nanos: string,
                     account': string, seconds': string, nanos': string)
    requires WellFormed(account, seconds, nanos) && WellFormed(account', seconds', nanos')
    requires ToMirrorNodeTransactionID(IdText(account, seconds, nanos))
             == ToMirrorNodeTransactionID(IdText(account', seconds', nanos'))
    ensures account == account' && Value(seconds) == Value(seconds') && Value(nanos) == Value(nanos')
  {
    KeyOf(account, seconds, nanos);
    KeyOf(account', seconds', nanos');
    KeyParts(account, seconds, nanos);
    KeyParts(account', seconds', nanos');
  }

  lemma KeyParts(account: string, seconds: string, nanos: string)
    requires WellFormed(account, seconds, nanos)
    ensures Split(Key(account, seconds, nanos), '-') == [account, Pad9(seconds), Pad9(nanos)]
    ensures AllDigits(Pad9(seconds)) && Value(Pad9(seconds)) == Value(seconds)
    ensures AllDigits(Pad9(nanos)) && Value(Pad9(nanos)) == Value(nanos)
  {
    PadValue(seconds);
    PadValue(nanos);
    SplitTwo(Pad9(seconds), '-', Pad9(nanos));
    SplitFirst(account, '-', Pad9(seconds) + "-" + Pad9(nanos));
    assert Key(account, seconds, nanos) == account + "-" + (Pad9(seconds) + "-" + Pad9(nanos));
  }

  /** Only the first conversion drops the suffix: on the id of a scheduled transaction the two
      never agree. */
  lemma ConversionsDisagreeOnScheduled(account: string, seconds: string, nanos: string)
    requires WellFormed(account, seconds, nanos)
    ensures var text := IdText(account, seconds, nanos) + "?scheduled";
            && ToMirrorNodeTransactionID(text).Some? && FromHederaTransactionID(text).Some?
            && ToMirrorNodeTransactionID(text).value != FromHederaTransactionID(text).value.String()
  {
    hide Split, Pad9, ToMirrorNodeTransactionID;
    var plain := IdText(account, seconds, nanos);
    var text := plain + "?scheduled";
    assert '?' !in plain;
    KeyOf(account, seconds, nanos);
    ScheduledSuffixIgnored(plain, "scheduled");
    assert plain + "?" + "scheduled" == text;
    var last := nanos + "?scheduled";
    assert text == account + "@" + (seconds + "." + last);
    SplitTwo(account, '@', seconds + "." + last);
    SplitTwo(seconds, '.', last);
    PadKeeps(last, '?');
    PadKeeps(seconds, '?');
    PadKeeps(nanos, '?');
    assert last[|nanos|] == '?';
    assert '?' !in Key(account, seconds, nanos);
    assert '?' in FromHederaTransactionID(text).value.String();
  }

  /** The valid-start timestamp of a converted id reads back as its seconds and nanos. */
  lemma TimestampOfId(account: string, seconds: string, nanos: string)
    requires WellFormed(account, seconds, nanos) && seconds != "" && nanos != ""
    requires Value(seconds) * Timestamps.NANOS_IN_SECOND + Value(nanos) <= Int64.MAX
    ensures var id := FromHederaTransactionID(IdText(account, seconds, nanos));
            && id.Some?
            && Timestamps.FromString(id.value.Timestamp())
               == Timestamps.Parsed(Value(seconds) * Timestamps.NANOS_IN_SECOND + Value(nanos))
  {
    FieldsOf(account, seconds, nanos);
    PadValue(seconds);
    PadValue(nanos);
    PaddedTimestamp(Pad9(seconds), Pad9(nanos));
  }

  lemma FieldsOf(account: string, seconds: string, nanos: string)
    requires WellFormed(account, seconds, nanos)
    ensures FromHederaTransactionID(IdText(account, seconds, nanos))
            == Some(HederaTransactionID(account, Pad9(seconds), Pad9(nanos)))
  {
    var time := seconds + "." + nanos;
    assert IdText(account, seconds, nanos) == account + "@" + time;
    SplitTwo(account, '@', time);
    SplitTwo(seconds, '.', nanos);
  }

  lemma PaddedTimestamp(s: string, n: string)
    requires s != "" && n != "" && AllDigits(s) && AllDigits(n)
    requires Value(s) * Timestamps.NANOS_IN_SECOND + Value(n) <= Int64.MAX
    ensures Timestamps.FromString(s + "." + n)
            == Timestamps.Parsed(Value(s) * Timestamps.NANOS_IN_SECOND + Value(n))
  {
    DigitsParse(s);
    DigitsParse(n);
    Timestamps.FromFields(s, n);
  }

  lemma DigitsParse(s: string)
    requires s != "" && AllDigits(s)
    ensures Int64.InRange(Value(s)) ==> ParseInt(s) == Some(Value(s))
  {
    assert IsDigit(s[0]);
  }
}
