/** The countdown ("D-Day") store of dday.js: at most three active
    countdowns, strictly future targets at creation, a signed day count and
    its label, and the expiry sweep 30 days after the target. The target is
    the calendar date the persisted 'YYYY-MM-DD' string names. */
module DDayStore {
  import opened Wrappers
  import opened Text
  import opened Seqs
  import opened Dates

  const MAX_ACTIVE: nat := 3
  const MAX_TITLE: nat := 30
  const EXPIRE_DAYS: int := 30
  const DEFAULT_EMOJI := "🎯"

  datatype DDay = DDay(
    id: string,
    title: string,
    targetDate: Date,
    emoji: string,
    isActive: bool,
    createdAt: string)

  /** The argument of `addDDay`; `None` is a missing field. */
  datatype DDayInput = DDayInput(title: Option<string>, targetDate: Date, emoji: Option<string>)

  /** What `addDDay` leaves behind: the collection and the created record,
      or `None` for JavaScript `null`. */
  datatype Added = Added(ddays: seq<DDay>, created: Option<DDay>)

  /** `ddays.filter(d => d.isActive).length`. */
  function ActiveCount(ddays: seq<DDay>): (n: nat)
    ensures n == |Filter(ddays, (d: DDay) => d.isActive)|
    decreases |ddays|
  {
    if |ddays| == 0 then 0 else (if ddays[0].isActive then 1 else 0) + ActiveCount(ddays[1..])
  }

  lemma {:induction false} ActiveCountAppend(a: seq<DDay>, b: seq<DDay>)
    ensures ActiveCount(a + b) == ActiveCount(a) + ActiveCount(b)
    decreases |a|
  {
    if |a| == 0 {
      assert a + b == b;
    } else {
      assert (a + b)[1..] == a[1..] + b;
      ActiveCountAppend(a[1..], b);
    }
  }

  // ---------------------------------------------------------------------
  // calculateDDay, formatDDay
  // ---------------------------------------------------------------------

  /** `calculateDDay(targetDate)` on calendar day `today`: the signed number
      of days from the target to today. */
  function CalculateDDay(target: Date, today: Date): (diff: int)
    ensures AddDays(target, diff) == today
    ensures diff == 0 <==> target == today
    ensures diff < 0 <==> Before(today, target)
    ensures diff > 0 <==> Before(target, today)
  {
    AddDaysDifference(target, today);
    DayNumberOrder(target, today);
    DayNumberOrder(today, target);
    DayNumberInjective(target, today);
    DayNumber(today) - DayNumber(target)
  }

  /** `formatDDay(diff)`: "D-5" five days ahead, "D-Day" on the day, "D+3"
      three days after. */
  function FormatDDay(diff: int): (s: string)
    ensures |s| >= 3 && s[0] == 'D'
    ensures s == "D-Day" <==> diff == 0
  {
    if diff < 0 then
      var t := IntToString(diff);
      assert IsDigit(t[1..][0]);
      assert ("D" + t)[2] == t[1] && "D-Day"[2] == 'D';
      "D" + t
    else if diff == 0 then "D-Day"
    else
      assert ("D+" + NatToString(diff))[1] == '+' && "D-Day"[1] == '-';
      "D+" + NatToString(diff)
  }

  /** Reads a label back: the inverse of `FormatDDay`. */
  function ParseDDay(s: string): (r: Option<int>)
    ensures r.Some? ==> |s| >= 3 && s[0] == 'D'
    ensures r.Some? && r.value < 0 ==> s[1] == '-'
    ensures r.Some? && r.value > 0 ==> s[1] == '+'
  {
    if s == "D-Day" then Some(0)
    else if |s| >= 3 && s[..2] == "D-" && AllDigits(s[2..]) then
      var n: int := ParseNat(s[2..]);
      Some(-n)
    else if |s| >= 3 && s[..2] == "D+" && AllDigits(s[2..]) then Some(ParseNat(s[2..]) as int)
    else None
  }

  lemma ParseSigned(sign: char, n: nat)
    requires sign == '-' || sign == '+'
    ensures ParseDDay(['D', sign] + NatToString(n)) == Some(if sign == '-' then -(n as int) else n as int)
  {
    var s := ['D', sign] + NatToString(n);
    assert s[2] == NatToString(n)[0];
    assert "D-Day"[2] == 'D';
    assert s != "D-Day";
    assert s[..2] == ['D', sign];
    assert s[2..] == NatToString(n);
    ParseNatToString(n);
  }

  lemma FormatNegative(diff: int)
    requires diff < 0
    ensures FormatDDay(diff) == ['D', '-'] + NatToString(-diff)
  {
    var digits := NatToString(-diff);
    assert IntToString(diff) == "-" + digits;
    assert "D" + ("-" + digits) == ['D', '-'] + digits;
  }

  lemma FormatPositive(diff: int)
    requires diff > 0
    ensures FormatDDay(diff) == ['D', '+'] + NatToString(diff)
  {
  }

  lemma RoundTripNegative(diff: int)
    requires diff < 0
    ensures ParseDDay(FormatDDay(diff)) == Some(diff)
  {
    var n: nat := -diff;
    calc {
      ParseDDay(FormatDDay(diff));
      { FormatNegative(diff); }
      ParseDDay(['D', '-'] + NatToString(n));
      { ParseSigned('-', n); }
      Some(-(n as int));
    }
  }

  lemma RoundTripPositive(diff: int)
    requires diff > 0
    ensures ParseDDay(FormatDDay(diff)) == Some(diff)
  {
    FormatPositive(diff);
    ParseSigned('+', diff);
  }

  /** Every label names its day count: distinct counts get distinct labels. */
  lemma FormatDDayRoundTrip(diff: int)
    ensures ParseDDay(FormatDDay(diff)) == Some(diff)
  {
    if diff < 0 {
      RoundTripNegative(diff);
    } else if diff > 0 {
      RoundTripPositive(diff);
    }
  }

  // ---------------------------------------------------------------------
  // addDDay, deleteDDay
  // ---------------------------------------------------------------------

  /** `addDDay(data)` on calendar day `today`, with generated `id` and clock
      reading `now`. */
  function AddDDay(ddays: seq<DDay>, input: DDayInput, today: Date, id: string, now: string): (r: Added)
    ensures r.created.None? <==>
      ActiveCount(ddays) >= MAX_ACTIVE || !Before(today, input.targetDate)
    ensures r.created.None? ==> r.ddays == ddays
    ensures r.created.Some? ==>
      var d := r.created.value;
      && r.ddays == ddays + [d]
      && d.id == id
      && d.isActive
      && d.targetDate == input.targetDate
      && |d.title| <= MAX_TITLE
      && d.title == Take(input.title.GetOr(""), MAX_TITLE)
      && d.emoji == (if input.emoji.Some? && input.emoji.value != "" then input.emoji.value else DEFAULT_EMOJI)
      && d.createdAt == now
  {
    DayNumberOrder(today, input.targetDate);
    if ActiveCount(ddays) >= MAX_ACTIVE then Added(ddays, None)
    else if DayNumber(input.targetDate) <= DayNumber(today) then Added(ddays, None)
    else
      var title := Take(input.title.GetOr(""), MAX_TITLE);
      var emoji := if input.emoji.Some? && input.emoji.value != "" then input.emoji.value else DEFAULT_EMOJI;
      var d := DDay(id, title, input.targetDate, emoji, true, now);
      Added(ddays + [d], Some(d))
  }

  /** `deleteDDay(id)`: `filter(d => d.id !== id)`. */
  function DeleteDDay(ddays: seq<DDay>, id: string): (r: seq<DDay>)
    ensures forall i :: 0 <= i < |r| ==> r[i].id != id && r[i] in ddays
    ensures forall i :: 0 <= i < |ddays| && ddays[i].id != id ==> ddays[i] in r
    ensures IsSubsequence(r, ddays)
    ensures |r| == |ddays| - CountWhere(ddays, (d: DDay) => d.id == id)
    ensures (forall i :: 0 <= i < |ddays| ==> ddays[i].id != id) ==> r == ddays
  {
    var r := Filter(ddays, (d: DDay) => d.id != id);
    CountComplement(ddays, (d: DDay) => d.id != id, (d: DDay) => d.id == id);
    r
  }

  lemma DeleteDDayIdempotent(ddays: seq<DDay>, id: string)
    ensures DeleteDDay(DeleteDDay(ddays, id), id) == DeleteDDay(ddays, id)
  {
  }

  // ---------------------------------------------------------------------
  // checkExpired
  // ---------------------------------------------------------------------

  predicate Expired(d: DDay, today: Date) {
    d.isActive && CalculateDDay(d.targetDate, today) >= EXPIRE_DAYS
  }

  function Expire(d: DDay, today: Date): DDay {
    if Expired(d, today) then d.(isActive := false) else d
  }

  /** `checkExpired()` on calendar day `today`: returns every record, with
      the ones 30 or more days past their target switched off. */
  function CheckExpired(ddays: seq<DDay>, today: Date): (r: seq<DDay>)
    ensures |r| == |ddays|
    ensures forall i :: 0 <= i < |ddays| ==> r[i] == ddays[i].(isActive := r[i].isActive)
    ensures forall i :: 0 <= i < |ddays| ==>
      (r[i].isActive <==> ddays[i].isActive && DayNumber(today) - DayNumber(ddays[i].targetDate) < EXPIRE_DAYS)
  {
    seq(|ddays|, i requires 0 <= i < |ddays| => Expire(ddays[i], today))
  }

  /** Sweeping twice on the same day changes nothing more. */
  lemma CheckExpiredIdempotent(ddays: seq<DDay>, today: Date)
    ensures CheckExpired(CheckExpired(ddays, today), today) == CheckExpired(ddays, today)
  {
  }

  /** A sweep on an earlier day is subsumed by a sweep on a later day:
      countdowns never come back to life. */
  lemma CheckExpiredMonotone(ddays: seq<DDay>, earlier: Date, later: Date)
    requires DayNumber(earlier) <= DayNumber(later)
    ensures CheckExpired(CheckExpired(ddays, earlier), later) == CheckExpired(ddays, later)
  {
  }

  lemma {:induction false} ActiveCountMonotone(a: seq<DDay>, b: seq<DDay>)
    requires |a| == |b|
    requires forall i :: 0 <= i < |a| ==> b[i].isActive ==> a[i].isActive
    ensures ActiveCount(b) <= ActiveCount(a)
    decreases |a|
  {
    if |a| > 0 {
      ActiveCountMonotone(a[1..], b[1..]);
    }
  }

  lemma {:induction false} ActiveCountSubsequence(sub: seq<DDay>, s: seq<DDay>)
    requires IsSubsequence(sub, s)
    ensures ActiveCount(sub) <= ActiveCount(s)
    decreases |s|
  {
    if |sub| > 0 && |s| > 0 {
      if sub[0] == s[0] {
        ActiveCountSubsequence(sub[1..], s[1..]);
      } else {
        ActiveCountSubsequence(sub, s[1..]);
      }
    }
  }

  /** The ceiling of three active countdowns survives every operation. */
  lemma AtMostThreeActive(ddays: seq<DDay>, input: DDayInput, today: Date, id: string, now: string)
    requires ActiveCount(ddays) <= MAX_ACTIVE
    ensures ActiveCount(AddDDay(ddays, input, today, id, now).ddays) <= MAX_ACTIVE
    ensures ActiveCount(DeleteDDay(ddays, id)) <= MAX_ACTIVE
    ensures ActiveCount(CheckExpired(ddays, today)) <= MAX_ACTIVE
  {
    var r := AddDDay(ddays, input, today, id, now);
    if r.created.Some? {
      ActiveCountAppend(ddays, [r.created.value]);
      assert [r.created.value][1..] == [];
    }
    ActiveCountSubsequence(DeleteDDay(ddays, id), ddays);
    ActiveCountMonotone(ddays, CheckExpired(ddays, today));
  }
}
