/**
 * The record identity built at capture time (App.tsx, `pad` and `id`):
 * the local calendar date, a dash, then the local time down to the
 * millisecond, `YYYYMMDD-HHMMSSmmm`.
 */
module RecordId {
  import opened Text

  /** The local-time fields of the capture instant, as `Date`'s getters give
      them (`month` is already `getMonth() + 1`). */
  datatype DateParts = DateParts(year: int, month: int, day: int,
                                 hours: int, minutes: int, seconds: int, millis: int)

  /** The ranges `Date`'s getters return. */
  predicate ValidParts(p: DateParts) {
    && 1 <= p.month <= 12 && 1 <= p.day <= 31
    && 0 <= p.hours < 24 && 0 <= p.minutes < 60 && 0 <= p.seconds < 60
    && 0 <= p.millis < 1000
  }

  /** `pad(n, len)`: `n.toString().padStart(len, '0')`. */
  function Pad(n: nat, len: nat): string {
    PadStart(NatText(n), len, '0')
  }

  /** The date half `YYYYMMDD`; the year is not padded. */
  function DateText(p: DateParts): string
    requires ValidParts(p)
  {
    IntText(p.year) + Pad(p.month, 2) + Pad(p.day, 2)
  }

  /** The time half `HHMMSSmmm`. */
  function TimeText(p: DateParts): string
    requires ValidParts(p)
  {
    Pad(p.hours, 2) + Pad(p.minutes, 2) + Pad(p.seconds, 2) + Pad(p.millis, 3)
  }

  /** The identity of a record captured at `p`. */
  function FormatId(p: DateParts): string
    requires ValidParts(p)
  {
    DateText(p) + "-" + TimeText(p)
  }

  /** Reads an identity back into its date and time fields. */
  function ParseId(s: string): (r: Option<DateParts>)
    ensures r.Some? ==> |s| == 18 && s[8] == '-'
  {
    if |s| == 18 && s[8] == '-' && AllDigits(s[..8]) && AllDigits(s[9..]) then
      var d, t := s[..8], s[9..];
      Some(DateParts(DigitsValue(d[0..4]), DigitsValue(d[4..6]), DigitsValue(d[6..8]),
                     DigitsValue(t[0..2]), DigitsValue(t[2..4]), DigitsValue(t[4..6]),
                     DigitsValue(t[6..9])))
    else None
  }

  /** A digit string of length `k` denotes a number below `10^k`. */
  lemma {:induction false} DigitsValueBound(s: string)
    requires AllDigits(s)
    ensures DigitsValue(s) < Pow10(|s|)
  {
    if s != [] {
      DigitsValueBound(s[..|s| - 1]);
    }
  }

  /** A number below `10^len` padded to `len` digits has exactly `len` digits. */
  lemma PadLength(n: nat, len: nat)
    requires n < Pow10(len) && len >= 1
    ensures |Pad(n, len)| == len && AllDigits(Pad(n, len)) && DigitsValue(Pad(n, len)) == n
  {
    NatTextLength(n, len);
    PaddedValue(n, len);
  }

  /** A four-digit year renders as exactly four digits. */
  lemma YearLength(y: int)
    requires 1000 <= y <= 9999
    ensures |IntText(y)| == 4 && AllDigits(IntText(y)) && DigitsValue(IntText(y)) == y
  {
    NatTextLength(y, 4);
    NatTextValue(y);
    DigitsValueBound(NatText(y));
  }

  lemma DateTextShape(p: DateParts)
    requires ValidParts(p) && 1000 <= p.year <= 9999
    ensures var d := DateText(p);
      && |d| == 8 && AllDigits(d)
      && DigitsValue(d[0..4]) == p.year && DigitsValue(d[4..6]) == p.month
      && DigitsValue(d[6..8]) == p.day
  {
    assert Pow10(2) == 100;
    YearLength(p.year);
    PadLength(p.month, 2);
    PadLength(p.day, 2);
    var y, mo, d := IntText(p.year), Pad(p.month, 2), Pad(p.day, 2);
    DigitsAppend(y, mo);
    DigitsAppend(y + mo, d);
    Pieces(y, mo, d);
  }

  /** Two digit strings make a digit string. */
  lemma DigitsAppend(a: string, b: string)
    requires AllDigits(a) && AllDigits(b)
    ensures AllDigits(a + b)
  {
    forall i | 0 <= i < |a + b|
      ensures IsDigit((a + b)[i])
    {
      if i >= |a| {
        assert (a + b)[i] == b[i - |a|];
      }
    }
  }

  /** The pieces of a three-part concatenation. */
  lemma Pieces(a: string, b: string, c: string)
    ensures var s := a + b + c;
      && s[0..|a|] == a && s[|a|..|a| + |b|] == b && s[|a| + |b|..|a| + |b| + |c|] == c
  {
    var s := a + b + c;
    assert s[0..|a|] == a;
    assert s[|a|..|a| + |b|] == b;
    assert s[|a| + |b|..|a| + |b| + |c|] == c;
  }

  lemma TimeTextShape(p: DateParts)
    requires ValidParts(p)
    ensures var t := TimeText(p);
      && |t| == 9 && AllDigits(t)
      && DigitsValue(t[0..2]) == p.hours && DigitsValue(t[2..4]) == p.minutes
      && DigitsValue(t[4..6]) == p.seconds && DigitsValue(t[6..9]) == p.millis
  {
    assert Pow10(2) == 100 && Pow10(3) == 1000;
    PadLength(p.hours, 2);
    PadLength(p.minutes, 2);
    PadLength(p.seconds, 2);
    PadLength(p.millis, 3);
    var h, mi, se, ms := Pad(p.hours, 2), Pad(p.minutes, 2), Pad(p.seconds, 2), Pad(p.millis, 3);
    DigitsAppend(h, mi);
    DigitsAppend(h + mi, se);
    DigitsAppend(h + mi + se, ms);
    Pieces(h, mi, se);
    var s := TimeText(p);
    assert s[0..6] == h + mi + se;
    assert s[6..9] == ms;
  }

  /** For a four-digit year the identity is eight digits, a dash and nine
      digits, and it reads back to the instant it was built from. Distinct
      instants therefore give distinct identities (see `FormatIdInjective`). */
  lemma FormatIdShape(p: DateParts)
    requires ValidParts(p) && 1000 <= p.year <= 9999
    ensures |FormatId(p)| == 18 && FormatId(p)[8] == '-'
    ensures AllDigits(FormatId(p)[..8]) && AllDigits(FormatId(p)[9..])
    ensures ParseId(FormatId(p)) == Some(p)
  {
    DateTextShape(p);
    TimeTextShape(p);
    var s := FormatId(p);
    assert s[..8] == DateText(p);
    assert s[9..] == TimeText(p);
  }

  /** Two captures at different instants (four-digit years) never share an
      identity. */
  lemma FormatIdInjective(p: DateParts, q: DateParts)
    requires ValidParts(p) && 1000 <= p.year <= 9999
    requires ValidParts(q) && 1000 <= q.year <= 9999
    ensures FormatId(p) == FormatId(q) <==> p == q
  {
    FormatIdShape(p);
    FormatIdShape(q);
  }
}
