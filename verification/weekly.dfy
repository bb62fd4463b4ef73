/** The weekly calendar of weekly.js: the Monday-anchored 7-day window, its
    range label, the week cursor, and the data the `render` function puts on
    screen (per-day cells with task dots, D-Day markers and up to three
    category bars). The DOM itself is not modelled; `BuildWeekView` returns
    what `render` would draw. */
module Weekly {
  import opened Wrappers
  import opened Text
  import opened Seqs
  import opened Dates
  import opened TodoStore
  import opened DDayStore

  const MAX_BARS: nat := 3

  // ---------------------------------------------------------------------
  // getMonday, getWeekDates
  // ---------------------------------------------------------------------

  /** `getMonday(date)`: the Monday on or before `d`. */
  function GetMonday(d: Date): (m: Date)
    ensures Weekday(m) == 1
    ensures DayNumber(m) <= DayNumber(d) < DayNumber(m) + 7
    ensures Weekday(d) == 0 ==> DayNumber(m) == DayNumber(d) - 6
  {
    var day := Weekday(d);
    var diff := if day == 0 then -6 else 1 - day;
    WeekdayAddDays(d, diff);
    MondayOffset(day);
    AddDays(d, diff)
  }

  /** `getMonday`'s offset lands on a Monday from every weekday. */
  lemma MondayOffset(w: int)
    requires 0 <= w < 7
    ensures (w + (if w == 0 then -6 else 1 - w)) % 7 == 1
  {
  }

  /** A Monday at most six days before `d` is the Monday `getMonday` finds. */
  lemma GetMondayUnique(m: Date, d: Date)
    requires Weekday(m) == 1
    requires DayNumber(m) <= DayNumber(d) < DayNumber(m) + 7
    ensures GetMonday(d) == m
  {
    SameWeekdayWithinWeek(GetMonday(d), m);
  }

  lemma GetMondayIdempotent(d: Date)
    ensures GetMonday(GetMonday(d)) == GetMonday(d)
  {
    GetMondayUnique(GetMonday(d), GetMonday(d));
  }

  /** `getWeekDates()` for the week starting at `start`. */
  function WeekDates(start: Date): (r: seq<Date>)
    ensures |r| == 7
    ensures forall i :: 0 <= i < 7 ==> r[i] == AddDays(start, i)
    ensures forall i :: 0 <= i < 7 ==> DayNumber(r[i]) == DayNumber(start) + i
    ensures forall i :: 0 <= i < 7 ==> Weekday(r[i]) == (Weekday(start) + i) % 7
  {
    WeekdaysAhead(start);
    seq(7, i requires 0 <= i < 7 => AddDays(start, i))
  }

  lemma WeekdaysAhead(start: Date)
    ensures forall i :: 0 <= i < 7 ==> Weekday(AddDays(start, i)) == (Weekday(start) + i) % 7
  {
    forall i | 0 <= i < 7
      ensures Weekday(AddDays(start, i)) == (Weekday(start) + i) % 7
    {
      WeekdayAddDays(start, i);
    }
  }

  // ---------------------------------------------------------------------
  // getWeekRangeText
  // ---------------------------------------------------------------------

  function YearText(d: Date): string { IntToString(d.year) + "년 " }
  function MonthText(d: Date): string { NatToString(d.month) + "월 " }
  function DayText(d: Date): string { NatToString(d.day) + "일" }

  /** `getWeekRangeText()` for the week starting at `start`. */
  function WeekRangeText(start: Date): string {
    RangeCaption(start, AddDays(start, 6))
  }

  /** The caption from Monday `mon` to Sunday `sun`: the year is named
      only across New Year, Sunday's month only when it differs. It opens
      with Monday's year or month and closes with Sunday's day. */
  function RangeCaption(mon: Date, sun: Date): (r: string)
    ensures var head := if mon.year != sun.year then YearText(mon) else MonthText(mon);
      && |head| <= |r| && r[..|head|] == head
      && |DayText(sun)| <= |r| && r[|r| - |DayText(sun)|..] == DayText(sun)
  {
    var y, m, d, t := YearText(mon), MonthText(mon), DayText(mon), DayText(sun);
    if mon.year != sun.year then
      var a := y + m + d + " ~ " + YearText(sun) + MonthText(sun);
      PrefixOfAppend(y + m + d + " ~ " + YearText(sun), MonthText(sun), |y|);
      PrefixOfAppend(y + m + d + " ~ ", YearText(sun), |y|);
      PrefixOfAppend(y + m + d, " ~ ", |y|);
      PrefixOfAppend(y + m, d, |y|);
      PrefixOfAppend(y, m, |y|);
      PrefixOfAppend(a, t, |y|);
      assert (a + t)[|a + t| - |t|..] == t;
      a + t
    else if mon.month == sun.month then
      var a := m + d + " ~ ";
      PrefixOfAppend(m + d, " ~ ", |m|);
      PrefixOfAppend(m, d, |m|);
      PrefixOfAppend(a, t, |m|);
      assert (a + t)[|a + t| - |t|..] == t;
      a + t
    else
      var a := m + d + " ~ " + MonthText(sun);
      PrefixOfAppend(m + d + " ~ ", MonthText(sun), |m|);
      PrefixOfAppend(m + d, " ~ ", |m|);
      PrefixOfAppend(m, d, |m|);
      PrefixOfAppend(a, t, |m|);
      assert (a + t)[|a + t| - |t|..] == t;
      a + t
  }

  lemma PrefixOfAppend(x: string, y: string, n: nat)
    requires n <= |x|
    ensures (x + y)[..n] == x[..n]
  {
  }

  /** `getWeekRangeText()` opens with Monday's year when the week
      straddles two years and with Monday's month otherwise, and closes
      with Sunday's day of the month. */
  lemma WeekRangeTextEnds(start: Date)
    ensures var sun := AddDays(start, 6);
      var head := if start.year != sun.year then YearText(start) else MonthText(start);
      var r := WeekRangeText(start);
      && |head| <= |r| && r[..|head|] == head
      && |DayText(sun)| <= |r| && r[|r| - |DayText(sun)|..] == DayText(sun)
  {
  }

  /** How often the unit characters 년 (year), 월 (month) and 일 (day)
      occur in a string. */
  function Units(s: string): (int, int, int) {
    (multiset(s)['년'], multiset(s)['월'], multiset(s)['일'])
  }

  lemma NoUnitsInDigits(n: nat)
    ensures Units(NatToString(n)) == (0, 0, 0)
  {
    assert '년' !in NatToString(n) && '월' !in NatToString(n) && '일' !in NatToString(n);
  }

  lemma NoUnitsInInt(i: int)
    ensures Units(IntToString(i)) == (0, 0, 0)
  {
    if i < 0 {
      NoUnitsInDigits(-i);
      assert multiset("-") == multiset{'-'};
      assert IntToString(i) == "-" + NatToString(-i);
    } else {
      NoUnitsInDigits(i);
    }
  }

  lemma YearTextUnits(d: Date)
    ensures Units(YearText(d)) == (1, 0, 0)
  {
    NoUnitsInInt(d.year);
    assert multiset("년 ") == multiset{'년', ' '};
  }

  lemma MonthTextUnits(d: Date)
    ensures Units(MonthText(d)) == (0, 1, 0)
  {
    NoUnitsInDigits(d.month);
    assert multiset("월 ") == multiset{'월', ' '};
  }

  lemma DayTextUnits(d: Date)
    ensures Units(DayText(d)) == (0, 0, 1)
  {
    NoUnitsInDigits(d.day);
    assert multiset("일") == multiset{'일'};
  }

  lemma PieceUnits(d: Date)
    ensures Units(YearText(d)) == (1, 0, 0)
    ensures Units(MonthText(d)) == (0, 1, 0)
    ensures Units(DayText(d)) == (0, 0, 1)
    ensures Units(" ~ ") == (0, 0, 0)
  {
    YearTextUnits(d);
    MonthTextUnits(d);
    DayTextUnits(d);
    assert multiset(" ~ ") == multiset{' ', '~', ' '};
  }

  function Plus(a: (int, int, int), b: (int, int, int)): (int, int, int) {
    (a.0 + b.0, a.1 + b.1, a.2 + b.2)
  }

  lemma UnitsAppend(a: string, b: string)
    ensures Units(a + b) == Plus(Units(a), Units(b))
  {
    assert multiset(a + b) == multiset(a) + multiset(b);
  }

  lemma SevenPieceUnits(y1: string, m1: string, d1: string, sep: string, y2: string, m2: string, d2: string)
    requires Units(y1) == (1, 0, 0) && Units(y2) == (1, 0, 0)
    requires Units(m1) == (0, 1, 0) && Units(m2) == (0, 1, 0)
    requires Units(d1) == (0, 0, 1) && Units(d2) == (0, 0, 1)
    requires Units(sep) == (0, 0, 0)
    ensures Units(y1 + m1 + d1 + sep + y2 + m2 + d2) == (2, 2, 2)
  {
    UnitsAppend(y1, m1);
    UnitsAppend(y1 + m1, d1);
    UnitsAppend(y1 + m1 + d1, sep);
    UnitsAppend(y1 + m1 + d1 + sep, y2);
    UnitsAppend(y1 + m1 + d1 + sep + y2, m2);
    UnitsAppend(y1 + m1 + d1 + sep + y2 + m2, d2);
  }

  lemma CrossYearUnits(mon: Date, sun: Date)
    ensures Units(YearText(mon) + MonthText(mon) + DayText(mon) + " ~ "
                  + YearText(sun) + MonthText(sun) + DayText(sun)) == (2, 2, 2)
  {
    PieceUnits(mon);
    PieceUnits(sun);
    SevenPieceUnits(YearText(mon), MonthText(mon), DayText(mon), " ~ ", YearText(sun), MonthText(sun), DayText(sun));
  }

  lemma SameMonthUnits(mon: Date, sun: Date)
    ensures Units(MonthText(mon) + DayText(mon) + " ~ " + DayText(sun)) == (0, 1, 2)
  {
    PieceUnits(mon);
    PieceUnits(sun);
    var s1 := MonthText(mon) + DayText(mon);
    UnitsAppend(MonthText(mon), DayText(mon));
    var s2 := s1 + " ~ ";
    UnitsAppend(s1, " ~ ");
    UnitsAppend(s2, DayText(sun));
  }

  lemma TwoMonthUnits(mon: Date, sun: Date)
    ensures Units(MonthText(mon) + DayText(mon) + " ~ " + MonthText(sun) + DayText(sun)) == (0, 2, 2)
  {
    PieceUnits(mon);
    PieceUnits(sun);
    var s1 := MonthText(mon) + DayText(mon);
    UnitsAppend(MonthText(mon), DayText(mon));
    var s2 := s1 + " ~ ";
    UnitsAppend(s1, " ~ ");
    var s3 := s2 + MonthText(sun);
    UnitsAppend(s2, MonthText(sun));
    UnitsAppend(s3, DayText(sun));
  }

  /** The label names both years only when the week crosses New Year, names
      the month once when Monday and Sunday share it and twice otherwise,
      and always names both days. */
  lemma WeekRangeTextShape(start: Date)
    ensures var sun := AddDays(start, 6);
      Units(WeekRangeText(start)) ==
        ( if start.year != sun.year then 2 else 0,
          if start.year == sun.year && start.month == sun.month then 1 else 2,
          2 )
  {
    var sun := AddDays(start, 6);
    if start.year != sun.year {
      CrossYearUnits(start, sun);
    } else if start.month == sun.month {
      SameMonthUnits(start, sun);
    } else {
      TwoMonthUnits(start, sun);
    }
  }

  /** A week can only straddle two years at the turn of December to January. */
  lemma WeekCrossesYear(start: Date)
    requires start.year != AddDays(start, 6).year
    ensures var sun := AddDays(start, 6);
      sun.year == start.year + 1 && start.month == 12 && sun.month == 1
  {
    var sun := AddDays(start, 6);
    var a, b := DayNumber(start), DayNumber(sun);
    assert b == a + 6;
    DayNumberOrder(start, sun);
    assert start.year < sun.year;
    DayOfYearBounds(start);
    DayOfYearBounds(sun);
    YearsApart(start.year, sun.year);
    YearStep(start.year);
    if sun.year > start.year + 1 {
      YearsApart(start.year + 1, sun.year);
    }
    MonthFromDayOfYear(start);
    MonthFromDayOfYear(sun);
  }

  // ---------------------------------------------------------------------
  // The week cursor: init / goToCurrentWeek, goToPrevWeek, goToNextWeek
  // ---------------------------------------------------------------------

  /** The module's transient state: the displayed week's Monday and the
      selected 'YYYY-MM-DD' date. */
  datatype WeekCursor = WeekCursor(weekStart: Date, selectedDate: string)

  /** `init()` / `goToCurrentWeek()` on calendar day `today`. */
  function CurrentWeek(today: Date): (c: WeekCursor)
    ensures Weekday(c.weekStart) == 1
    ensures DayNumber(c.weekStart) <= DayNumber(today) < DayNumber(c.weekStart) + 7
    ensures c.selectedDate == FormatDate(today)
  {
    WeekCursor(GetMonday(today), FormatDate(today))
  }

  /** `goToPrevWeek()`. */
  function PrevWeek(c: WeekCursor): (r: WeekCursor)
    ensures DayNumber(r.weekStart) == DayNumber(c.weekStart) - 7
    ensures Weekday(r.weekStart) == Weekday(c.weekStart)
    ensures r.selectedDate == c.selectedDate
  {
    WeekdayAddWeek(c.weekStart);
    c.(weekStart := AddDays(c.weekStart, -7))
  }

  /** `goToNextWeek()`. */
  function NextWeek(c: WeekCursor): (r: WeekCursor)
    ensures DayNumber(r.weekStart) == DayNumber(c.weekStart) + 7
    ensures Weekday(r.weekStart) == Weekday(c.weekStart)
    ensures r.selectedDate == c.selectedDate
  {
    WeekdayAddWeek(c.weekStart);
    c.(weekStart := AddDays(c.weekStart, 7))
  }

  /** Moving forward and back a week are mutual inverses. */
  lemma PrevNextInverse(c: WeekCursor)
    ensures PrevWeek(NextWeek(c)) == c
    ensures NextWeek(PrevWeek(c)) == c
  {
    AddDaysAdd(c.weekStart, 7, -7);
    AddDaysAdd(c.weekStart, -7, 7);
  }

  // ---------------------------------------------------------------------
  // D-Day markers
  // ---------------------------------------------------------------------

  datatype Marker = Marker(text: string, state: string)

  /** The marker `render` draws for a countdown, seen on calendar day `today`. */
  function MarkerFor(d: DDay, today: Date): (m: Marker)
    ensures m.text == FormatDDay(CalculateDDay(d.targetDate, today))
    ensures m.state == "dday-today" <==> d.targetDate == today
    ensures m.state == "dday-past" <==> Before(d.targetDate, today)
    ensures m.state == "" <==> Before(today, d.targetDate)
  {
    var diff := CalculateDDay(d.targetDate, today);
    Marker(
      if diff == 0 then "D-Day" else FormatDDay(diff),
      if diff == 0 then "dday-today" else if diff > 0 then "dday-past" else "")
  }

  /** `d.targetDate >= startStr && d.targetDate <= endStr` on the stored
      date strings. */
  predicate InWindow(d: DDay, startStr: string, endStr: string) {
    !Less(FormatDate(d.targetDate), startStr) && !Less(endStr, FormatDate(d.targetDate))
  }

  predicate Shown(d: DDay, startStr: string, endStr: string) {
    d.isActive && InWindow(d, startStr, endStr)
  }

  /** Countdown `d` puts a marker on the day whose string is `key`. */
  predicate ShowsOn(d: DDay, startStr: string, endStr: string, key: string) {
    Shown(d, startStr, endStr) && FormatDate(d.targetDate) == key
  }

  /** The day a countdown marks in the window, if it is shown at all. */
  function MarkerKey(d: DDay, startStr: string, endStr: string): (k: Option<string>)
    ensures k.Some? <==> Shown(d, startStr, endStr)
    ensures forall key :: k == Some(key) <==> ShowsOn(d, startStr, endStr, key)
  {
    if Shown(d, startStr, endStr) then Some(FormatDate(d.targetDate)) else None
  }

  function MarkerKeys(startStr: string, endStr: string): DDay -> Option<string> {
    (d: DDay) => MarkerKey(d, startStr, endStr)
  }

  function Markers(today: Date): DDay -> Marker {
    (d: DDay) => MarkerFor(d, today)
  }

  /** The position of the last countdown shown on the day whose string is
      `key`: the one whose marker survives in `ddayMap`. */
  function LastShown(ddays: seq<DDay>, startStr: string, endStr: string, key: string): (r: Option<nat>)
    ensures r.Some? ==> (
      && r.value < |ddays|
      && ShowsOn(ddays[r.value], startStr, endStr, key)
      && (forall j :: r.value < j < |ddays| ==> !ShowsOn(ddays[j], startStr, endStr, key)))
    ensures r.None? ==> forall j :: 0 <= j < |ddays| ==> !ShowsOn(ddays[j], startStr, endStr, key)
  {
    LastKeyed(ddays, MarkerKeys(startStr, endStr), key)
  }

  /** The `ddayMap` of `render`: for every active countdown inside the
      window, in order, its target string is bound to its marker, later
      countdowns overwriting earlier ones on the same day. */
  function DDayMarkers(ddays: seq<DDay>, startStr: string, endStr: string, today: Date): (r: map<string, Marker>)
    ensures forall k :: k in r <==> LastShown(ddays, startStr, endStr, k).Some?
    ensures forall k :: k in r ==> r[k] == MarkerFor(ddays[LastShown(ddays, startStr, endStr, k).value], today)
  {
    LastWins(ddays, MarkerKeys(startStr, endStr), Markers(today))
  }

  /** For four-digit years the string window test is exactly "the target is
      one of the seven days of the week". */
  lemma InWindowIsWeek(d: DDay, start: Date)
    requires FourDigitYear(d.targetDate) && FourDigitYear(start) && FourDigitYear(AddDays(start, 6))
    ensures InWindow(d, FormatDate(start), FormatDate(AddDays(start, 6)))
      <==> 0 <= DayNumber(d.targetDate) - DayNumber(start) <= 6
  {
    FormatDateOrder(d.targetDate, start);
    FormatDateOrder(AddDays(start, 6), d.targetDate);
  }

  // ---------------------------------------------------------------------
  // Category bars
  // ---------------------------------------------------------------------

  datatype CatEntry = CatEntry(category: string, isRecurring: bool)

  function EntryOf(t: Todo): CatEntry {
    CatEntry(t.category, t.isRecurring)
  }

  /** The names a plain JavaScript object `{}` already answers through
      `Object.prototype`: `seen[c]` is truthy for these before anything is
      stored in `seen`. */
  const OBJECT_PROTOTYPE_KEYS: set<string> := {
    "constructor", "hasOwnProperty", "isPrototypeOf", "propertyIsEnumerable",
    "toLocaleString", "toString", "valueOf", "__proto__",
    "__defineGetter__", "__defineSetter__", "__lookupGetter__", "__lookupSetter__"}

  /** A category the grouping loop can list: one `{}` does not inherit. */
  predicate Listed(category: string) {
    category !in OBJECT_PROTOTYPE_KEYS
  }

  /** `todos[i]` is the first task of its category, and that category can
      be listed. */
  predicate FirstOfCategory(todos: seq<Todo>, i: int)
    requires 0 <= i < |todos|
  {
    && Listed(todos[i].category)
    && forall j :: 0 <= j < i ==> todos[j].category != todos[i].category
  }

  /** The listable categories among the first `n` tasks. */
  function CategoriesOf(todos: seq<Todo>, n: nat): set<string>
    requires n <= |todos|
  {
    set i | 0 <= i < n && Listed(todos[i].category) :: todos[i].category
  }

  /** Reference definition: the entries of the first tasks of each listable
      category among `todos[..n]`, in task order. */
  function FirstSeen(todos: seq<Todo>, n: nat): (r: seq<CatEntry>)
    requires n <= |todos|
    ensures forall a, b :: 0 <= a < b < |r| ==> r[a].category != r[b].category
    ensures (set k | 0 <= k < |r| :: r[k].category) == CategoriesOf(todos, n)
    decreases n
  {
    if n == 0 then []
    else
      var prev := FirstSeen(todos, n - 1);
      var t := todos[n - 1];
      var c := t.category;
      assert CategoriesOf(todos, n) == CategoriesOf(todos, n - 1) + (if Listed(c) then {c} else {});
      if FirstOfCategory(todos, n - 1) then
        assert c !in CategoriesOf(todos, n - 1);
        var r := prev + [EntryOf(t)];
        assert forall k :: 0 <= k < |prev| ==> r[k] == prev[k];
        assert r[|prev|].category == c;
        assert (set k | 0 <= k < |r| :: r[k].category)
            == (set k | 0 <= k < |prev| :: prev[k].category) + {c};
        r
      else
        assert Listed(c) ==> c in CategoriesOf(todos, n - 1);
        prev
  }

  /** The `seen`/`catEntries` loop of `render`, from position `i` on. */
  function Group(todos: seq<Todo>, i: nat, seen: set<string>, acc: seq<CatEntry>): seq<CatEntry>
    requires i <= |todos|
    decreases |todos| - i
  {
    if i == |todos| then acc
    else if todos[i].category in seen then Group(todos, i + 1, seen, acc)
    else Group(todos, i + 1, seen + {todos[i].category}, acc + [EntryOf(todos[i])])
  }

  /** Started from the names `{}` inherits, the loop builds the reference
      list. */
  lemma {:induction false} GroupIsFirstSeen(todos: seq<Todo>, i: nat, seen: set<string>, acc: seq<CatEntry>)
    requires i <= |todos|
    requires seen == OBJECT_PROTOTYPE_KEYS + CategoriesOf(todos, i)
    requires acc == FirstSeen(todos, i)
    ensures Group(todos, i, seen, acc) == FirstSeen(todos, |todos|)
    decreases |todos| - i
  {
    if i < |todos| {
      var c := todos[i].category;
      assert CategoriesOf(todos, i + 1) == CategoriesOf(todos, i) + (if Listed(c) then {c} else {});
      if c in seen {
        if Listed(c) {
          var j :| 0 <= j < i && Listed(todos[j].category) && todos[j].category == c;
        }
        assert !FirstOfCategory(todos, i);
        GroupIsFirstSeen(todos, i + 1, seen, acc);
      } else {
        assert FirstOfCategory(todos, i);
        GroupIsFirstSeen(todos, i + 1, seen + {c}, acc + [EntryOf(todos[i])]);
      }
    }
  }

  /** The de-duplicated categories of one day: distinct, every listable
      category of the day present, and each taken from its first task in
      order. */
  function CategoryEntries(todos: seq<Todo>): (r: seq<CatEntry>)
    ensures r == FirstSeen(todos, |todos|)
    ensures forall a, b :: 0 <= a < b < |r| ==> r[a].category != r[b].category
    ensures (set k | 0 <= k < |r| :: r[k].category) == CategoriesOf(todos, |todos|)
    ensures forall k :: 0 <= k < |r| ==> Listed(r[k].category)
    ensures |r| == |CategoriesOf(todos, |todos|)|
  {
    assert CategoriesOf(todos, 0) == {};
    GroupIsFirstSeen(todos, 0, OBJECT_PROTOTYPE_KEYS, []);
    var r := FirstSeen(todos, |todos|);
    DistinctCount(r);
    assert forall k :: 0 <= k < |r| ==> r[k].category in CategoriesOf(todos, |todos|);
    Group(todos, 0, OBJECT_PROTOTYPE_KEYS, [])
  }

  /** Tasks whose categories are all inherited names get no entry, so
      their day draws no bar. */
  lemma InheritedCategoriesUnlisted(todos: seq<Todo>)
    requires forall i :: 0 <= i < |todos| ==> todos[i].category in OBJECT_PROTOTYPE_KEYS
    ensures CategoryEntries(todos) == []
    ensures ScheduleFor(todos) == Schedule([], None)
  {
    assert CategoriesOf(todos, |todos|) == {};
  }

  lemma {:induction false} DistinctCount(r: seq<CatEntry>)
    requires forall a, b :: 0 <= a < b < |r| ==> r[a].category != r[b].category
    ensures |set k | 0 <= k < |r| :: r[k].category| == |r|
    decreases |r|
  {
    if |r| > 0 {
      var n := |r| - 1;
      var front := r[..n];
      DistinctCount(front);
      var whole := set k | 0 <= k < |r| :: r[k].category;
      var part := set k | 0 <= k < |front| :: front[k].category;
      assert forall k :: 0 <= k < n ==> front[k] == r[k];
      assert whole == part + {r[n].category};
      assert r[n].category !in part;
    }
  }

  /** The CSS class of each task category's bar. */
  const CATEGORY_CSS: map<string, string> := map[
    "직장" := "cat-work", "공부" := "cat-study", "운동" := "cat-exercise",
    "식사" := "cat-meal", "약속" := "cat-appointment", "행사" := "cat-event",
    "약 복용" := "cat-medicine"]

  /** `CATEGORY_CSS[category] || 'cat-work'` for a category that has an
      entry (no entry has an inherited name): every bar gets one of the
      seven styled classes, and a category outside the table is drawn as
      work. */
  function CategoryCss(category: string): (css: string)
    requires Listed(category)
    ensures css in CATEGORY_CSS.Values
    ensures category == "직장" ==> css == "cat-work"
    ensures category == "공부" ==> css == "cat-study"
    ensures category == "운동" ==> css == "cat-exercise"
    ensures category == "식사" ==> css == "cat-meal"
    ensures category == "약속" ==> css == "cat-appointment"
    ensures category == "행사" ==> css == "cat-event"
    ensures category == "약 복용" ==> css == "cat-medicine"
    ensures category !in CATEGORY_CSS ==> css == "cat-work"
  {
    assert CATEGORY_CSS["직장"] == "cat-work";
    if category in CATEGORY_CSS then CATEGORY_CSS[category] else "cat-work"
  }

  datatype Bar = Bar(cssClass: string, recurring: bool)

  /** The bars and the "+n" counter drawn for one day's tasks. */
  datatype Schedule = Schedule(bars: seq<Bar>, more: Option<nat>)

  /** `s` draws one bar per category of `todos`, in first-seen order, up
      to `MAX_BARS`, and counts the categories left over. */
  predicate Draws(s: Schedule, todos: seq<Todo>) {
    var n := |CategoriesOf(todos, |todos|)|;
    var e := CategoryEntries(todos);
    && |s.bars| == (if n < MAX_BARS then n else MAX_BARS)
    && (s.more.Some? <==> n > MAX_BARS)
    && (s.more.Some? ==> s.more.value == n - MAX_BARS)
    && forall k :: 0 <= k < |s.bars| ==> k < |e| && s.bars[k] == Bar(CategoryCss(e[k].category), e[k].isRecurring)
  }

  function ScheduleFor(todos: seq<Todo>): (s: Schedule)
    ensures Draws(s, todos)
  {
    var entries := CategoryEntries(todos);
    var shown := if |entries| < MAX_BARS then entries else entries[..MAX_BARS];
    Schedule(
      seq(|shown|, k requires 0 <= k < |shown| => Bar(CategoryCss(shown[k].category), shown[k].isRecurring)),
      if |entries| > MAX_BARS then Some(|entries| - MAX_BARS) else None)
  }

  // ---------------------------------------------------------------------
  // render
  // ---------------------------------------------------------------------

  datatype DayCell = DayCell(
    date: string,
    isToday: bool,
    isSelected: bool,
    otherMonth: bool,
    isSaturday: bool,
    isSunday: bool,
    dayOfMonth: int,
    hasTasks: bool,
    marker: Option<Marker>,
    schedule: Schedule)

  datatype WeekView = WeekView(rangeText: string, cells: seq<DayCell>)

  /** Tasks of one day from the optional per-date task source; a missing
      entry reads as no tasks. */
  function TasksOn(weekTodos: map<string, seq<Todo>>, date: string): (r: seq<Todo>)
    ensures date !in weekTodos ==> r == []
    ensures date in weekTodos ==> r == weekTodos[date]
    ensures |r| > 0 ==> date in weekTodos
  {
    if date in weekTodos then weekTodos[date] else []
  }

  /** The marker of the day whose string is `key`, read from `ddayMap`. */
  function MarkerOn(ddays: seq<DDay>, startStr: string, endStr: string, today: Date, key: string): (m: Option<Marker>)
    ensures var last := LastShown(ddays, startStr, endStr, key);
      && (m.Some? <==> last.Some?)
      && (m.Some? ==> m.value == MarkerFor(ddays[last.value], today))
  {
    var markers := DDayMarkers(ddays, startStr, endStr, today);
    if key in markers then Some(markers[key]) else None
  }

  /** The schedule drawn for a day's tasks; an empty day draws nothing. */
  function DaySchedule(todos: seq<Todo>): (s: Schedule)
    ensures Draws(s, todos)
    ensures |todos| == 0 ==> s == Schedule([], None)
  {
    if |todos| > 0 then ScheduleFor(todos) else Schedule([], None)
  }

  /** What the cell of `date` must show, in the week whose window strings
      are `startStr`..`endStr`. */
  predicate CellShows(cell: DayCell, c: WeekCursor, date: Date, today: Date, ddays: seq<DDay>,
                      startStr: string, endStr: string, weekTodos: map<string, seq<Todo>>)
  {
    var todos := TasksOn(weekTodos, cell.date);
    var last := LastShown(ddays, startStr, endStr, cell.date);
    && cell.date == FormatDate(date)
    && (cell.isToday <==> FormatDate(date) == FormatDate(today))
    && (cell.isSelected <==> FormatDate(date) == c.selectedDate)
    && (cell.otherMonth <==> date.month != c.weekStart.month)
    && (cell.isSaturday <==> Weekday(date) == 6)
    && (cell.isSunday <==> Weekday(date) == 0)
    && cell.dayOfMonth == date.day
    && (cell.hasTasks <==> |todos| > 0)
    && Draws(cell.schedule, todos)
    && (cell.marker.Some? <==> last.Some?)
    && (cell.marker.Some? ==> cell.marker.value == MarkerFor(ddays[last.value], today))
  }

  function CellFor(c: WeekCursor, date: Date, today: Date, ddays: seq<DDay>, startStr: string, endStr: string,
                   weekTodos: map<string, seq<Todo>>): (cell: DayCell)
    ensures CellShows(cell, c, date, today, ddays, startStr, endStr, weekTodos)
  {
    var s := FormatDate(date);
    var todos := TasksOn(weekTodos, s);
    DayCell(
      s, s == FormatDate(today), s == c.selectedDate, date.month != c.weekStart.month,
      Weekday(date) == 6, Weekday(date) == 0, date.day, |todos| > 0,
      MarkerOn(ddays, startStr, endStr, today, s),
      DaySchedule(todos))
  }

  /** `render()` for cursor `c` on calendar day `today`, with the countdown
      collection and the per-date tasks (empty when the task store offers no
      weekly query). */
  function BuildWeekView(c: WeekCursor, today: Date, ddays: seq<DDay>,
                         weekTodos: map<string, seq<Todo>>): (v: WeekView)
    ensures v.rangeText == WeekRangeText(c.weekStart)
    ensures |v.cells| == 7
  {
    var startStr := FormatDate(c.weekStart);
    var endStr := FormatDate(AddDays(c.weekStart, 6));
    WeekView(
      WeekRangeText(c.weekStart),
      seq(7, i requires 0 <= i < 7 => CellFor(c, AddDays(c.weekStart, i), today, ddays, startStr, endStr, weekTodos)))
  }

  /** Cell i of the rendered week is the cell of Monday + i, with the
      countdown window running from Monday's string to Sunday's. */
  lemma BuildWeekViewCells(c: WeekCursor, today: Date, ddays: seq<DDay>,
                           weekTodos: map<string, seq<Todo>>, i: int)
    requires 0 <= i < 7
    ensures CellShows(BuildWeekView(c, today, ddays, weekTodos).cells[i], c, AddDays(c.weekStart, i), today, ddays,
                      FormatDate(c.weekStart), FormatDate(AddDays(c.weekStart, 6)), weekTodos)
  {
  }
}
