/** Consensus timestamps: int64 nanoseconds, written `{seconds}.{nanos}`. */
module Timestamps {
  import opened Int64
  import opened Text

  const NANOS_IN_SECOND := 1_000_000_000

  /** What parsing a timestamp text does; a text without a dot whose seconds parse makes
      `FromString` of the Go code index past the end of the split text. */
  datatype Parsed = Parsed(nanos: int64) | InvalidSeconds | InvalidNanos | IndexPanic

  function FromString(timestamp: string): Parsed {
    var parts := Split(timestamp, '.');
    var seconds := ParseInt(parts[0]);
    if seconds.None? then InvalidSeconds
    else if |parts| < 2 then IndexPanic
    else
      var nanos := ParseInt(parts[1]);
      if nanos.None? then InvalidNanos
      else Parsed(Wrap(Wrap(seconds.value * NANOS_IN_SECOND) + nanos.value))
  }

  function String(timestamp: int64): string {
    FormatInt(Quo(timestamp, NANOS_IN_SECOND)) + "." + FormatInt(Rem(timestamp, NANOS_IN_SECOND))
  }

  /** The parser's result on two fields that both parse: seconds and nanos combined modulo
      2^64, so exact whenever the result fits. */
  lemma FromFields(seconds: string, nanos: string)
    requires ParseInt(seconds).Some? && ParseInt(nanos).Some?
    ensures FromString(seconds + "." + nanos)
            == Parsed(Wrap(ParseInt(seconds).value * NANOS_IN_SECOND + ParseInt(nanos).value))
  {
    ParsedHasNo(seconds, '.');
    ParsedHasNo(nanos, '.');
    SplitTwo(seconds, '.', nanos);
    var s: int, n: int := ParseInt(seconds).value, ParseInt(nanos).value;
    var x := s * NANOS_IN_SECOND;
    CongruentSum(Wrap(x), x, n, n);
    CongruentSum(Wrap(Wrap(x) + n), Wrap(x) + n, 0, 0);
    var w := Wrap(Wrap(x) + n);
    CongruentTrans(w, Wrap(x) + n, x + n);
    WrapUnique(x + n, w);
  }

  lemma CongruentTrans(a: int, b: int, c: int)
    requires Congruent(a, b) && Congruent(b, c)
    ensures Congruent(a, c)
  {
    CongruentSum(a, b, b, c);
  }

  /** Writing and reading a timestamp gives it back, for every int64, negatives included. */
  lemma RoundTrip(t: int64)
    ensures FromString(String(t)) == Parsed(t)
  {
    var s, n := Quo(t, NANOS_IN_SECOND), Rem(t, NANOS_IN_SECOND);
    ParseFormat(s);
    ParseFormat(n);
    FromFields(FormatInt(s), FormatInt(n));
  }

  /** The text of a timestamp is its whole seconds and its remaining nanoseconds, fewer than a
      second of them and of the same sign. */
  lemma StringForm(t: int64)
    ensures var parts := Split(String(t), '.');
            && |parts| == 2 && ParseInt(parts[0]).Some? && ParseInt(parts[1]).Some?
            && var s: int, n: int := ParseInt(parts[0]).value, ParseInt(parts[1]).value;
               && s * NANOS_IN_SECOND + n == t && -NANOS_IN_SECOND < n < NANOS_IN_SECOND
               && (t >= 0 ==> s >= 0 && n >= 0) && (t <= 0 ==> s <= 0 && n <= 0)
  {
    var s, n := Quo(t, NANOS_IN_SECOND), Rem(t, NANOS_IN_SECOND);
    ParseFormat(s);
    ParseFormat(n);
    ParsedHasNo(FormatInt(s), '.');
    ParsedHasNo(FormatInt(n), '.');
    SplitTwo(FormatInt(s), '.', FormatInt(n));
  }

  /** The ways a text fails to be read: its first field is no int64; it has no dot; its second
      field is no int64. */
  lemma Unreadable(seconds: string, nanos: string)
    requires '.' !in seconds && '.' !in nanos
    ensures ParseInt(seconds).None? ==> FromString(seconds) == FromString(seconds + "." + nanos) == InvalidSeconds
    ensures ParseInt(seconds).Some? ==> FromString(seconds) == IndexPanic
    ensures ParseInt(seconds).Some? && ParseInt(nanos).None? ==> FromString(seconds + "." + nanos) == InvalidNanos
  {
    SplitNone(seconds, '.');
    SplitTwo(seconds, '.', nanos);
  }

  /** Well-formed fields: non-negative seconds, nanos below one second, result within 64 bits. */
  predicate WellFormed(seconds: string, nanos: string) {
    var s, n := ParseInt(seconds), ParseInt(nanos);
    s.Some? && n.Some? && 0 <= s.value && 0 <= n.value < NANOS_IN_SECOND
    && s.value as int * NANOS_IN_SECOND + n.value <= MAX
  }

  /** On well-formed texts the parser preserves and reflects the (seconds, nanos) order. */
  lemma OrderPreserving(seconds: string, nanos: string, seconds': string, nanos': string)
    requires WellFormed(seconds, nanos) && WellFormed(seconds', nanos')
    ensures var t, t' := FromString(seconds + "." + nanos), FromString(seconds' + "." + nanos');
            var s, n := ParseInt(seconds).value, ParseInt(nanos).value;
            var s', n' := ParseInt(seconds').value, ParseInt(nanos').value;
            && t.Parsed? && t'.Parsed?
            && (t.nanos < t'.nanos <==> s < s' || (s == s' && n < n'))
  {
    FromFields(seconds, nanos);
    FromFields(seconds', nanos');
  }
}
