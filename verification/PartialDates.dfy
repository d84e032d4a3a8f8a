/** Partial timestamps in GaussDB range filters (common/metadata_gaussdb_filter.py): the
    filter value is normalised in Python (`normalize_datetime_prefix`), the document value
    is padded in SQL (`_datetime_expr`).  Both sides must name the same instant. */
module PartialDates {
  import opened Basics

  function Val(c: char): nat
    requires IsDigit(c)
  {
    c as int - '0' as int
  }

  function Digit(n: nat): char
    requires n < 10
  {
    n as char + '0'
  }

  /** The character allowed at a position of `YYYY-MM-DD HH:MM:SS`. */
  predicate CharOk(i: nat, c: char) {
    if i == 4 || i == 7 then c == '-'
    else if i == 10 then c == ' ' || c == 'T'
    else if i == 13 || i == 16 then c == ':'
    else IsDigit(c)
  }

  /** One of the five accepted shapes, from `YYYY-MM` to the full timestamp. */
  predicate Shaped(t: string) {
    |t| in {7, 10, 13, 16, 19} && forall i: nat | i < |t| :: CharOk(i, t[i])
  }

  datatype Stamp = Stamp(year: nat, month: nat, day: nat, hour: nat, minute: nat, second: nat)

  function Two(t: string, i: nat): nat
    requires i + 1 < |t| && IsDigit(t[i]) && IsDigit(t[i + 1])
    ensures Two(t, i) < 100
  {
    10 * Val(t[i]) + Val(t[i + 1])
  }

  function Fields(t: string): (s: Stamp)
    requires Shaped(t)
    ensures s.year < 10000 && s.month < 100 && s.day < 100 && s.hour < 100 && s.minute < 100 && s.second < 100
  {
    assert CharOk(0, t[0]) && CharOk(1, t[1]) && CharOk(2, t[2]) && CharOk(3, t[3]) && CharOk(5, t[5]) && CharOk(6, t[6]);
    assert |t| > 8 ==> CharOk(8, t[8]) && CharOk(9, t[9]);
    assert |t| > 11 ==> CharOk(11, t[11]) && CharOk(12, t[12]);
    assert |t| > 14 ==> CharOk(14, t[14]) && CharOk(15, t[15]);
    assert |t| > 17 ==> CharOk(17, t[17]) && CharOk(18, t[18]);
    Stamp(100 * Two(t, 0) + Two(t, 2), Two(t, 5), if |t| > 8 then Two(t, 8) else 1,
          if |t| > 11 then Two(t, 11) else 0, if |t| > 14 then Two(t, 14) else 0, if |t| > 17 then Two(t, 17) else 0)
  }

  predicate IsLeap(y: nat) { y % 4 == 0 && (y % 100 != 0 || y % 400 == 0) }

  function DaysIn(y: nat, m: nat): nat {
    if m == 2 then (if IsLeap(y) then 29 else 28) else if m in {4, 6, 9, 11} then 30 else 31
  }

  /** What the `datetime` constructor accepts. */
  predicate RealDate(s: Stamp) {
    1 <= s.year < 10000 && 1 <= s.month <= 12 && 1 <= s.day <= DaysIn(s.year, s.month)
    && s.hour < 24 && s.minute < 60 && s.second < 60
  }

  function Pad2(n: nat): string
    requires n < 100
  {
    [Digit(n / 10), Digit(n % 10)]
  }

  /** `%Y`: some C libraries do not pad years before 1000. */
  function YearText(y: nat, padded: bool): string
    requires y < 10000
  {
    if padded || y >= 1000 then Pad2(y / 100) + Pad2(y % 100)
    else if y >= 100 then [Digit(y / 100)] + Pad2(y % 100)
    else if y >= 10 then Pad2(y)
    else [Digit(y)]
  }

  /** `strftime("%Y-%m-%d %H:%M:%S")` */
  function Format(s: Stamp, padded: bool): string
    requires s.year < 10000 && s.month < 100 && s.day < 100 && s.hour < 100 && s.minute < 100 && s.second < 100
  {
    YearText(s.year, padded) + "-" + Pad2(s.month) + "-" + Pad2(s.day) + " "
    + Pad2(s.hour) + ":" + Pad2(s.minute) + ":" + Pad2(s.second)
  }

  /** `normalize_datetime_prefix` */
  function Normalize(t: string, padded: bool): Option<string> {
    if Shaped(t) && RealDate(Fields(t)) then Some(Format(Fields(t), padded)) else None
  }

  const DEFAULT := "0000-00-01 00:00:00"

  function Spaced(t: string): string { seq(|t|, i requires 0 <= i < |t| => if t[i] == 'T' then ' ' else t[i]) }

  /** `_datetime_expr`: the document text with `T` replaced and the missing tail added. */
  function PadText(t: string): Option<string> {
    if Shaped(t) then Some(Spaced(t) + DEFAULT[|t|..]) else None
  }

  // ------------------------------------------------------------------ both sides agree

  lemma Pad2Two(t: string, i: nat)
    requires i + 1 < |t| && IsDigit(t[i]) && IsDigit(t[i + 1])
    ensures Pad2(Two(t, i)) == [t[i], t[i + 1]]
  {}

  lemma PadShaped(t: string)
    requires Shaped(t)
    ensures var p := PadText(t).value;
            |p| == 19 && Shaped(p) && p[10] == ' ' && Fields(p) == Fields(t) && Spaced(p) == p
  {
    var p := PadText(t).value;
    forall i: nat | i < 19
      ensures CharOk(i, p[i]) && p[i] != 'T' && (i == 10 ==> p[i] == ' ')
      ensures i < |t| && i != 10 ==> p[i] == t[i]
    {
      if i < |t| {
        assert CharOk(i, t[i]);
      } else {
        assert p[i] == DEFAULT[i];
      }
    }
    assert |t| <= 8 ==> p[8] == '0' && p[9] == '1';
    assert |t| <= 11 ==> p[11] == '0' && p[12] == '0';
    assert |t| <= 14 ==> p[14] == '0' && p[15] == '0';
    assert |t| <= 17 ==> p[17] == '0' && p[18] == '0';
  }

  /** A full timestamp prints back as it was written. */
  lemma FormatFull(p: string)
    requires Shaped(p) && |p| == 19 && p[10] == ' '
    ensures Format(Fields(p), true) == p
  {
    hide Two, Val, Digit;
    assert forall i: nat | i < 19 :: CharOk(i, p[i]);
    var s := Fields(p);
    assert s.year / 100 == Two(p, 0) && s.year % 100 == Two(p, 2);
    Pad2Two(p, 0);
    Pad2Two(p, 2);
    Pad2Two(p, 5);
    Pad2Two(p, 8);
    Pad2Two(p, 11);
    Pad2Two(p, 14);
    Pad2Two(p, 17);
    Nineteen(p);
  }

  lemma Nineteen(p: string)
    requires |p| == 19 && p[10] == ' ' && CharOk(4, p[4]) && CharOk(7, p[7]) && CharOk(13, p[13]) && CharOk(16, p[16])
    ensures [p[0], p[1]] + [p[2], p[3]] + "-" + [p[5], p[6]] + "-" + [p[8], p[9]] + " "
            + [p[11], p[12]] + ":" + [p[14], p[15]] + ":" + [p[17], p[18]] == p
  {
  }

  lemma FormatLength(s: Stamp, padded: bool)
    requires s.year < 10000 && s.month < 100 && s.day < 100 && s.hour < 100 && s.minute < 100 && s.second < 100
    ensures |Format(s, padded)| == 15 + |YearText(s.year, padded)|
  {}

  /** Exactly the texts of one of the five shapes that name a date of the calendar are
      normalised; a thirteenth month or a thirtieth of February is not. */
  lemma NormalizedIff(t: string, padded: bool)
    ensures Normalize(t, padded).Some? <==>
              Shaped(t) && 1 <= Fields(t).month <= 12 && 1 <= Fields(t).year && 1 <= Fields(t).day
              && Fields(t).hour < 24 && Fields(t).minute < 60 && Fields(t).second < 60
              && Fields(t).day <= (if Fields(t).month in {1, 3, 5, 7, 8, 10, 12} then 31
                                   else if Fields(t).month != 2 then 30
                                   else if Fields(t).year % 400 == 0 then 29
                                   else if Fields(t).year % 100 == 0 then 28
                                   else if Fields(t).year % 4 == 0 then 29 else 28)
  {
  }

  /** For every text that names a real date, the normalised filter value is the padded
      document text exactly when the year has four digits of its own or the platform pads
      it. */
  lemma SidesAgreeIff(t: string, padded: bool)
    requires Shaped(t) && RealDate(Fields(t))
    ensures Normalize(t, padded) == PadText(t) <==> padded || Fields(t).year >= 1000
  {
    PadShaped(t);
    FormatFull(PadText(t).value);
    FormatLength(Fields(t), padded);
  }

  /** Normalising again changes nothing, on exactly the same years. */
  lemma NormalizeIdempotentIff(t: string, padded: bool)
    requires Normalize(t, padded).Some?
    ensures Normalize(Normalize(t, padded).value, padded) == Normalize(t, padded) <==> padded || Fields(t).year >= 1000
  {
    if padded || Fields(t).year >= 1000 {
      SidesAgreeIff(t, padded);
      PadShaped(t);
      var p := PadText(t).value;
      SidesAgreeIff(p, padded);
      assert p + DEFAULT[19..] == p;
    } else {
      ShortYearIsUnshaped(Fields(t));
    }
  }

  /** A year of fewer than four digits is not read back. */
  lemma ShortYearIsUnshaped(s: Stamp)
    requires s.year < 1000 && s.month < 100 && s.day < 100 && s.hour < 100 && s.minute < 100 && s.second < 100
    ensures !Shaped(Format(s, false))
  {
    var f, k := Format(s, false), |YearText(s.year, false)|;
    assert f[k] == '-' && k < 4;
    assert !CharOk(k, f[k]);
  }

  // ------------------------------------------------------------------ order

  predicate Before(a: Stamp, b: Stamp) {
    a.year < b.year || (a.year == b.year &&
    (a.month < b.month || (a.month == b.month &&
    (a.day < b.day || (a.day == b.day &&
    (a.hour < b.hour || (a.hour == b.hour &&
    (a.minute < b.minute || (a.minute == b.minute && a.second < b.second)))))))))
  }

  lemma TwoDecide(a: string, b: string, k: nat)
    requires |a| == |b| && k + 1 < |a|
    requires IsDigit(a[k]) && IsDigit(a[k + 1]) && IsDigit(b[k]) && IsDigit(b[k + 1])
    ensures LessFrom(a, b, k) <==> Two(a, k) < Two(b, k) || (Two(a, k) == Two(b, k) && LessFrom(a, b, k + 2))
  {
    assert LessFrom(a, b, k + 1) <==> a[k + 1] < b[k + 1] || (a[k + 1] == b[k + 1] && LessFrom(a, b, k + 2));
  }

  predicate Full(p: string) { Shaped(p) && |p| == 19 && p[10] == ' ' }

  /** On full timestamps, the order of the strings is the order in time. */
  lemma TextOrderIsTimeOrder(a: string, b: string)
    requires Full(a) && Full(b)
    ensures LessFrom(a, b, 0) <==> Before(Fields(a), Fields(b))
  {
    assert forall i: nat | i < 19 :: CharOk(i, a[i]) && CharOk(i, b[i]);
    TwoDecide(a, b, 0);
    TwoDecide(a, b, 2);
    assert LessFrom(a, b, 4) <==> LessFrom(a, b, 5);
    TwoDecide(a, b, 5);
    assert LessFrom(a, b, 7) <==> LessFrom(a, b, 8);
    TwoDecide(a, b, 8);
    assert LessFrom(a, b, 10) <==> LessFrom(a, b, 11);
    TwoDecide(a, b, 11);
    assert LessFrom(a, b, 13) <==> LessFrom(a, b, 14);
    TwoDecide(a, b, 14);
    assert LessFrom(a, b, 16) <==> LessFrom(a, b, 17);
    TwoDecide(a, b, 17);
    assert !LessFrom(a, b, 19);
  }

  /** The range condition: both sides as timestamps. */
  predicate InRange(doc: string, cmp: Comparison, filter: string)
    requires Full(doc) && Full(filter)
  {
    match cmp
    case Gt => Before(Fields(filter), Fields(doc))
    case Ge => !Before(Fields(doc), Fields(filter))
    case Lt => Before(Fields(doc), Fields(filter))
    case Le => !Before(Fields(filter), Fields(doc))
  }

  /** Comparing timestamps is comparing their padded texts. */
  lemma RangeIsTextOrder(doc: string, cmp: Comparison, filter: string)
    requires Full(doc) && Full(filter)
    ensures InRange(doc, cmp, filter) <==> TextsCompare(cmp, doc, filter)
  {
    TextOrderIsTimeOrder(doc, filter);
    TextOrderIsTimeOrder(filter, doc);
  }

  /** A document that holds the filter's own text, in whatever partial shape, satisfies
      the two inclusive comparisons and neither strict one. */
  lemma OwnValueIsInclusive(t: string)
    requires Shaped(t) && RealDate(Fields(t)) && Fields(t).year >= 1000
    ensures var doc, filter := PadText(t).value, Normalize(t, false).value;
            && Full(doc) && Full(filter)
            && InRange(doc, Ge, filter) && InRange(doc, Le, filter)
            && !InRange(doc, Gt, filter) && !InRange(doc, Lt, filter)
  {
    SidesAgreeIff(t, false);
    PadShaped(t);
  }

  /** The year 999 shows that the bound on the year is needed. */
  lemma YearsBefore1000Differ()
    ensures Shaped("0999-01") && RealDate(Fields("0999-01"))
    ensures Normalize("0999-01", false) != PadText("0999-01")
  {
    var t := "0999-01";
    assert forall i: nat | i < 7 :: CharOk(i, t[i]) by {
      assert t[0] == '0' && t[1] == '9' && t[2] == '9' && t[3] == '9' && t[4] == '-' && t[5] == '0' && t[6] == '1';
    }
    assert Fields(t) == Stamp(999, 1, 1, 0, 0, 0);
    SidesAgreeIff(t, false);
  }
}
