/**
 * The task list page: the loader that formats tasks for display (tag parsing),
 * the due-date sum and expiry check, the search filter, the delete-confirmation
 * modal and the `action` that forwards deletions to the server handler.
 */
module IndexRoute {
  import opened Basics
  import opened Strings
  import Store
  import Tasks

  // ---------------------------------------------------------------- tags

  /**
   * Turns the stored comma-joined tag text into a list: when the text holds a comma,
   * its comma-separated pieces, each trimmed; otherwise the text itself, untrimmed.
   */
  function ParseTags(raw: string): (tags: seq<string>)
    ensures ',' in raw ==> |tags| == Count(raw, ',') + 1
    ensures ',' in raw ==> |tags| == |Split(raw, ',')|
                           && forall i :: 0 <= i < |tags| ==> tags[i] == Trim(Split(raw, ',')[i])
    ensures ',' in raw ==> forall i :: 0 <= i < |tags| ==> ',' !in tags[i]
    ensures ',' !in raw ==> tags == [raw]
  {
    if ',' in raw then
      SplitPieces(raw, ',');
      var parts := Split(raw, ',');
      seq(|parts|, i requires 0 <= i < |parts| => Trim(parts[i]))
    else
      [raw]
  }

  /** The page shows no tag badges exactly for the list `[""]`. */
  predicate ShowsNoTags(tags: seq<string>) {
    |tags| == 1 && tags[0] == ""
  }

  /** A string that holds `c` counts at least one `c`. */
  lemma {:induction false} CountPositive(s: string, c: char)
    requires c in s
    ensures Count(s, c) >= 1
  {
    if s[0] != c {
      assert c in s[1..] by {
        var k :| 0 <= k < |s| && s[k] == c;
        assert s[1..][k - 1] == c;
      }
      CountPositive(s[1..], c);
    }
  }

  /** The page shows no tags exactly when the stored tag text is empty. */
  lemma NoTagsIffEmpty(raw: string)
    ensures ShowsNoTags(ParseTags(raw)) <==> raw == ""
  {
    if ',' in raw {
      CountPositive(raw, ',');
    }
  }

  /** Joining at least two trimmed, comma-free tags with `,` and parsing gives them back. */
  lemma ParseTagsJoin(tags: seq<string>)
    requires |tags| >= 2
    requires forall i :: 0 <= i < |tags| ==> ',' !in tags[i]
    requires forall i :: 0 <= i < |tags| ==> tags[i] == [] || (!IsSpace(tags[i][0]) && !IsSpace(tags[i][|tags[i]| - 1]))
    ensures ParseTags(Join(tags, ',')) == tags
  {
    var raw := Join(tags, ',');
    assert raw == tags[0] + [','] + Join(tags[1..], ',');
    assert raw[|tags[0]|] == ',';
    SplitJoin(tags, ',');
    forall i | 0 <= i < |tags| ensures Trim(tags[i]) == tags[i] {
      TrimOfTrimmed(tags[i]);
    }
  }

  // ---------------------------------------------------------------- numbers

  /** A JavaScript number as far as the page uses it: a whole number or NaN. */
  datatype Num = NaN | Finite(value: int)

  predicate IsDigit(c: char) {
    '0' <= c <= '9'
  }

  predicate AllDigits(s: string) {
    forall k :: 0 <= k < |s| ==> IsDigit(s[k])
  }

  /** The value of the first `n` characters of a string of decimal digits. */
  function PrefixValue(s: string, n: nat): nat
    requires n <= |s| && AllDigits(s)
  {
    if n == 0 then 0 else 10 * PrefixValue(s, n - 1) + (s[n - 1] as int - '0' as int)
  }

  /** The value of a string of decimal digits. */
  function DecimalValue(s: string): nat
    requires AllDigits(s)
  {
    PrefixValue(s, |s|)
  }

  /**
   * `Number(s)`: white space around the text is ignored, the empty text is 0,
   * an optionally signed run of decimal digits is its value, anything else is NaN.
   */
  function ToNumber(s: string): Num {
    var t := Trim(s);
    if t == "" then Finite(0)
    else if (t[0] == '+' || t[0] == '-') && |t| > 1 && AllDigits(t[1..]) then
      var v: int := DecimalValue(t[1..]);
      Finite(if t[0] == '-' then -v else v)
    else if AllDigits(t) then Finite(DecimalValue(t))
    else NaN
  }

  /** A non-empty run of digits reads as its decimal value. */
  lemma DigitsToNumber(d: string)
    requires |d| > 0 && AllDigits(d)
    ensures ToNumber(d) == Finite(DecimalValue(d))
    ensures ToNumber(Trim(d)) == Finite(DecimalValue(d))
  {
    assert IsDigit(d[0]) && IsDigit(d[|d| - 1]);
    TrimOfTrimmed(d);
  }

  /** JavaScript `+` on numbers: NaN absorbs everything. */
  function Add(a: Num, b: Num): Num {
    if a.NaN? || b.NaN? then NaN else Finite(a.value + b.value)
  }

  /** `ns.reduce((sum, n) => sum + n, 0)`: a left fold starting from 0. */
  function Total(ns: seq<Num>): Num {
    if |ns| == 0 then Finite(0) else Add(Total(ns[..|ns| - 1]), ns[|ns| - 1])
  }

  /** The total is NaN exactly when some part is NaN. */
  lemma {:induction false} TotalNaN(ns: seq<Num>)
    ensures Total(ns).NaN? <==> NaN in ns
  {
    if |ns| > 0 {
      TotalNaN(ns[..|ns| - 1]);
      assert ns == ns[..|ns| - 1] + [ns[|ns| - 1]];
    }
  }

  /** The total of two runs is the sum of their totals. */
  lemma {:induction false} TotalAppend(a: seq<Num>, b: seq<Num>)
    ensures Total(a + b) == Add(Total(a), Total(b))
  {
    if |b| == 0 {
      assert a + b == a;
    } else {
      var b' := b[..|b| - 1];
      assert (a + b)[..|a + b| - 1] == a + b';
      assert (a + b)[|a + b| - 1] == b[|b| - 1];
      TotalAppend(a, b');
    }
  }

  /** One `/`-separated part of a date: trimmed, then converted with `Number`. */
  function PartNumber(part: string): Num {
    ToNumber(Trim(part))
  }

  /** `parts.map(f)`. */
  function Values(f: string -> Num, parts: seq<string>): (ns: seq<Num>)
    ensures |ns| == |parts|
  {
    seq(|parts|, i requires 0 <= i < |parts| => f(parts[i]))
  }

  /** Mapping works piecewise. */
  lemma ValuesAppend(f: string -> Num, a: seq<string>, b: seq<string>)
    ensures Values(f, a + b) == Values(f, a) + Values(f, b)
  {
    var l, r := Values(f, a + b), Values(f, a) + Values(f, b);
    forall i | 0 <= i < |l| ensures l[i] == r[i] {
      if i < |a| {
        assert (a + b)[i] == a[i];
      } else {
        assert (a + b)[i] == b[i - |a|];
      }
    }
  }

  /** `Add` is associative and commutative, with 0 as its unit. */
  lemma AddLaws(x: Num, y: Num, z: Num)
    ensures Add(Add(x, y), z) == Add(x, Add(y, z))
    ensures Add(x, y) == Add(y, x)
    ensures Add(x, Finite(0)) == x
  {
  }

  /** Adding one more part at the end adds its value to the total. */
  lemma TotalLast(f: string -> Num, init: seq<string>, x: string)
    ensures Total(Values(f, init + [x])) == Add(Total(Values(f, init)), f(x))
  {
    ValuesAppend(f, init, [x]);
    assert Values(f, [x]) == [f(x)];
    TotalAppend(Values(f, init), [f(x)]);
    assert [f(x)][..0] == [];
    AddLaws(f(x), f(x), Finite(0));
  }

  /** A part in the middle contributes its value as if it came last. */
  lemma TotalMiddle(f: string -> Num, front: seq<string>, x: string, back: seq<string>)
    ensures Total(Values(f, front + [x] + back)) == Add(Total(Values(f, front + back)), f(x))
  {
    ValuesAppend(f, front + [x], back);
    ValuesAppend(f, front, back);
    TotalLast(f, front, x);
    var tf, tb := Total(Values(f, front)), Total(Values(f, back));
    TotalAppend(Values(f, front + [x]), Values(f, back));
    TotalAppend(Values(f, front), Values(f, back));
    AddLaws(tf, f(x), tb);
    AddLaws(tf, tb, f(x));
    AddLaws(f(x), tb, Finite(0));
  }

  /** Taking the same element out of two equal multisets leaves equal multisets. */
  lemma MultisetRemoveOne<T>(init: seq<T>, x: T, front: seq<T>, back: seq<T>)
    requires multiset(init + [x]) == multiset(front + [x] + back)
    ensures multiset(init) == multiset(front + back)
  {
    var rest := front + back;
    calc {
      multiset(init) + multiset{x};
      multiset(init + [x]);
      multiset(front + [x] + back);
      multiset(front) + multiset{x} + multiset(back);
      multiset(rest) + multiset{x};
    }
    assert multiset(init) == multiset(init) + multiset{x} - multiset{x};
    assert multiset(rest) == multiset(rest) + multiset{x} - multiset{x};
  }

  /** The sum of mapped parts does not depend on the order of the parts. */
  lemma {:induction false} ValuesPermutation(f: string -> Num, ps: seq<string>, qs: seq<string>)
    requires multiset(ps) == multiset(qs)
    ensures Total(Values(f, ps)) == Total(Values(f, qs))
    decreases |ps|
  {
    if |ps| == 0 {
      assert |qs| == |multiset(qs)| == 0;
    } else {
      var n := |ps|;
      var x := ps[n - 1];
      var init := ps[..n - 1];
      assert ps == init + [x];
      assert x in multiset(qs);
      var i :| 0 <= i < |qs| && qs[i] == x;
      var front, back := qs[..i], qs[i + 1..];
      assert qs == front + [x] + back;
      MultisetRemoveOne(init, x, front, back);
      ValuesPermutation(f, init, front + back);
      TotalLast(f, init, x);
      TotalMiddle(f, front, x, back);
    }
  }

  // ---------------------------------------------------------------- due dates

  /** `hanldeDate(date)`: split on `/`, trim, convert with `Number`, add up from 0. */
  function DateSum(date: string): Num {
    Total(Values(PartNumber, Split(date, '/')))
  }

  /** The date sum is the total of the numeric values of the trimmed parts, in any number of parts. */
  lemma DateSumOfParts(parts: seq<string>)
    requires |parts| > 0
    requires forall i :: 0 <= i < |parts| ==> '/' !in parts[i]
    ensures DateSum(Join(parts, '/')) == Total(Values(PartNumber, parts))
  {
    SplitJoin(parts, '/');
  }

  /** Reordering the parts of a date leaves its sum unchanged. */
  lemma DateSumPermutation(ps: seq<string>, qs: seq<string>)
    requires |ps| > 0 && multiset(ps) == multiset(qs)
    requires forall i :: 0 <= i < |ps| ==> '/' !in ps[i]
    ensures DateSum(Join(ps, '/')) == DateSum(Join(qs, '/'))
  {
    assert |qs| == |multiset(qs)| == |multiset(ps)| == |ps|;
    forall j | 0 <= j < |qs| ensures '/' !in qs[j] {
      assert qs[j] in multiset(ps);
      var i :| 0 <= i < |ps| && ps[i] == qs[j];
    }
    DateSumOfParts(ps);
    DateSumOfParts(qs);
    ValuesPermutation(PartNumber, ps, qs);
  }

  /** The text `d/m/y` is the join of its three parts. */
  lemma JoinThree(d: string, m: string, y: string)
    ensures Join([d, m, y], '/') == d + "/" + m + "/" + y
  {
    assert [d, m, y][1..] == [m, y];
    assert [m, y][1..] == [y];
    assert Join([m, y], '/') == m + "/" + y;
  }

  /** A run of digits holds no separator. */
  lemma DigitsHaveNoSlash(d: string)
    requires AllDigits(d)
    ensures '/' !in d
  {
  }

  /** Mapping three parts. */
  lemma ValuesThree(f: string -> Num, a: string, b: string, c: string)
    ensures Values(f, [a, b, c]) == [f(a), f(b), f(c)]
  {
  }

  /** A `d/m/y` text whose parts hold no `/` splits into exactly those parts. */
  lemma SplitThree(d: string, m: string, y: string)
    requires '/' !in d && '/' !in m && '/' !in y
    ensures Split(d + "/" + m + "/" + y, '/') == [d, m, y]
  {
    JoinThree(d, m, y);
    SplitJoin([d, m, y], '/');
  }

  /** The total of three numbers, added from 0 left to right. */
  lemma TotalThree(x: Num, y: Num, z: Num)
    ensures Total([x, y, z]) == Add(Add(Add(Finite(0), x), y), z)
  {
    var ns := [x, y, z];
    assert ns[..2] == [x, y];
    assert [x, y][..1] == [x];
    assert [x][..0] == [];
    assert Total([x]) == Add(Finite(0), x);
    assert Total([x, y]) == Add(Add(Finite(0), x), y);
  }

  /**
   * The date sum of a `d/m/y` text is 0 + d + m + y, each part trimmed and read with
   * `Number`, added left to right.
   */
  lemma DateSumThree(d: string, m: string, y: string)
    requires '/' !in d && '/' !in m && '/' !in y
    ensures DateSum(d + "/" + m + "/" + y)
      == Add(Add(Add(Finite(0), PartNumber(d)), PartNumber(m)), PartNumber(y))
  {
    SplitThree(d, m, y);
    ValuesThree(PartNumber, d, m, y);
    TotalThree(PartNumber(d), PartNumber(m), PartNumber(y));
  }

  /** Three parts with numeric values total their sum. */
  lemma TotalOfThree(f: string -> Num, d: string, m: string, y: string, a: int, b: int, c: int)
    requires '/' !in d && '/' !in m && '/' !in y
    requires f(d) == Finite(a) && f(m) == Finite(b) && f(y) == Finite(c)
    ensures Total(Values(f, Split(d + "/" + m + "/" + y, '/'))) == Finite(a + b + c)
  {
    SplitThree(d, m, y);
    ValuesThree(f, d, m, y);
    TotalThree(f(d), f(m), f(y));
  }

  /** A `d/m/y` text whose parts read as numbers sums to their sum. */
  lemma DateSumOfValues(d: string, m: string, y: string, a: int, b: int, c: int)
    requires '/' !in d && '/' !in m && '/' !in y
    requires PartNumber(d) == Finite(a) && PartNumber(m) == Finite(b) && PartNumber(y) == Finite(c)
    ensures DateSum(d + "/" + m + "/" + y) == Finite(a + b + c)
  {
    TotalOfThree(PartNumber, d, m, y, a, b, c);
  }

  /** For a `d/m/y` text of digit runs, the date sum is day + month + year. */
  lemma DateSumDayMonthYear(d: string, m: string, y: string)
    requires |d| > 0 && |m| > 0 && |y| > 0
    requires AllDigits(d) && AllDigits(m) && AllDigits(y)
    ensures DateSum(d + "/" + m + "/" + y) == Finite(DecimalValue(d) + DecimalValue(m) + DecimalValue(y))
  {
    DigitsHaveNoSlash(d);
    DigitsHaveNoSlash(m);
    DigitsHaveNoSlash(y);
    DigitPart(d, DecimalValue(d));
    DigitPart(m, DecimalValue(m));
    DigitPart(y, DecimalValue(y));
    DateSumOfValues(d, m, y, DecimalValue(d), DecimalValue(m), DecimalValue(y));
  }

  /** The year of the examples read digit by digit. */
  lemma YearDigits()
    ensures AllDigits("2025") && DecimalValue("2025") == 2025
  {
    assert PrefixValue("2025", 2) == 20;
    assert PrefixValue("2025", 3) == 202;
  }

  /** A digit run as a date part reads as its decimal value. */
  lemma DigitPart(d: string, v: int)
    requires |d| > 0 && AllDigits(d) && DecimalValue(d) == v
    ensures PartNumber(d) == Finite(v)
  {
    DigitsToNumber(d);
  }

  /**
   * `handleExpired(date)` with `today` the formatted current date: the due date
   * counts as expired when its sum is at most today's. A NaN sum on either side
   * makes the comparison false.
   */
  function IsExpired(date: string, today: string): (expired: bool)
    ensures expired <==> DateSum(date).Finite? && DateSum(today).Finite?
                         && DateSum(date).value <= DateSum(today).value
  {
    var a, b := DateSum(date), DateSum(today);
    a.Finite? && b.Finite? && a.value <= b.value
  }

  /**
   * For `d/m/y` texts of digit runs, the check as written compares day + month + year
   * of the due date with day + month + year of today.
   */
  lemma ExpiredIffSumAtMost(d: string, m: string, y: string, td: string, tm: string, ty: string)
    requires |d| > 0 && |m| > 0 && |y| > 0 && |td| > 0 && |tm| > 0 && |ty| > 0
    requires AllDigits(d) && AllDigits(m) && AllDigits(y)
    requires AllDigits(td) && AllDigits(tm) && AllDigits(ty)
    ensures IsExpired(d + "/" + m + "/" + y, td + "/" + tm + "/" + ty)
      <==> DecimalValue(d) + DecimalValue(m) + DecimalValue(y)
           <= DecimalValue(td) + DecimalValue(tm) + DecimalValue(ty)
  {
    DateSumDayMonthYear(d, m, y);
    DateSumDayMonthYear(td, tm, ty);
  }

  /** Equal sums count as expired: a date with a numeric sum is expired on that same day. */
  lemma ExpiredOnItsOwnDay(date: string, today: string)
    requires DateSum(date) == DateSum(today) && DateSum(date).Finite?
    ensures IsExpired(date, today)
  {
  }

  /**
   * A due date without slashes and without surrounding white space that starts
   * with neither a digit, a sign nor a point, and is not `Infinity`, is not a
   * number to `Number`: its sum is NaN, so it is never expired.
   */
  lemma WordNeverExpired(word: string, today: string)
    requires '/' !in word && |word| > 0
    requires !IsSpace(word[0]) && !IsSpace(word[|word| - 1])
    requires !IsDigit(word[0]) && word[0] != '+' && word[0] != '-' && word[0] != '.'
    requires word != "Infinity"
    ensures DateSum(word) == NaN
    ensures !IsExpired(word, today)
  {
    SplitJoin([word], '/');
    assert Split(word, '/') == [word];
    TrimOfTrimmed(word);
    assert PartNumber(word) == NaN;
    assert Values(PartNumber, [word]) == [NaN];
    assert [NaN][..0] == [];
  }

  /** A missing due date is formatted as "Invalid Date": never expired. */
  lemma InvalidDateNeverExpired(today: string)
    ensures !IsExpired("Invalid Date", today)
  {
    WordNeverExpired("Invalid Date", today);
  }

  /** A calendar date read from a `d/m/y` text. */
  datatype Date = Date(day: int, month: int, year: int)

  /** Calendar order: by year, then month, then day. */
  predicate OnOrBefore(a: Date, b: Date) {
    a.year < b.year || (a.year == b.year && (a.month < b.month || (a.month == b.month && a.day <= b.day)))
  }

  /**
   * The expiry check as written is not chronological: 31/1/2025 lies before
   * 1/2/2025 (today), and today counts as expired, yet 31/1/2025 does not.
   */
  lemma SumExpiryNotChronological()
    ensures OnOrBefore(Date(31, 1, 2025), Date(1, 2, 2025))
    ensures IsExpired("1/2/2025", "1/2/2025")
    ensures !IsExpired("31/1/2025", "1/2/2025")
  {
    TodaySum();
    DueDateSum();
  }

  /** The sum of the example's today: 1 + 2 + 2025. */
  lemma TodaySum()
    ensures DateSum("1/2/2025") == Finite(2028)
  {
    YearDigits();
    assert "1/2/2025" == "1" + "/" + "2" + "/" + "2025";
    DateSumDayMonthYear("1", "2", "2025");
  }

  /** The sum of the example's due date: 31 + 1 + 2025. */
  lemma DueDateSum()
    ensures DateSum("31/1/2025") == Finite(2057)
  {
    YearDigits();
    assert "31/1/2025" == "31" + "/" + "1" + "/" + "2025";
    assert PrefixValue("31", 1) == 3;
    DateSumDayMonthYear("31", "1", "2025");
  }

  /** A `d/m/y` text with exactly three numeric parts, read as a calendar date. */
  function CalendarDate(s: string): (d: Option<Date>)
    ensures d.Some? ==> |Split(s, '/')| == 3
  {
    var ns := Values(PartNumber, Split(s, '/'));
    if |ns| == 3 && ns[0].Finite? && ns[1].Finite? && ns[2].Finite? then
      Some(Date(ns[0].value, ns[1].value, ns[2].value))
    else
      None
  }

  /** Digit-run parts read as day, month and year. */
  lemma CalendarDateDayMonthYear(d: string, m: string, y: string)
    requires |d| > 0 && |m| > 0 && |y| > 0
    requires AllDigits(d) && AllDigits(m) && AllDigits(y)
    ensures CalendarDate(d + "/" + m + "/" + y) == Some(Date(DecimalValue(d), DecimalValue(m), DecimalValue(y)))
  {
    DigitsHaveNoSlash(d);
    DigitsHaveNoSlash(m);
    DigitsHaveNoSlash(y);
    SplitThree(d, m, y);
    ValuesThree(PartNumber, d, m, y);
    DigitsToNumber(d);
    DigitsToNumber(m);
    DigitsToNumber(y);
  }

  /**
   * Expiry by calendar order: a due date is expired when it falls on or before
   * today. Texts that are not three numeric parts are never expired.
   */
  function IsOverdue(date: string, today: string): (overdue: bool)
    ensures overdue <==> CalendarDate(date).Some? && CalendarDate(today).Some?
                         && OnOrBefore(CalendarDate(date).value, CalendarDate(today).value)
  {
    match (CalendarDate(date), CalendarDate(today))
    case (Some(a), Some(b)) => OnOrBefore(a, b)
    case _ => false
  }

  /** For `d/m/y` texts of digit runs, the calendar check compares the dates in calendar order. */
  lemma OverdueIffOnOrBefore(d: string, m: string, y: string, td: string, tm: string, ty: string)
    requires |d| > 0 && |m| > 0 && |y| > 0 && |td| > 0 && |tm| > 0 && |ty| > 0
    requires AllDigits(d) && AllDigits(m) && AllDigits(y)
    requires AllDigits(td) && AllDigits(tm) && AllDigits(ty)
    ensures IsOverdue(d + "/" + m + "/" + y, td + "/" + tm + "/" + ty)
      <==> OnOrBefore(Date(DecimalValue(d), DecimalValue(m), DecimalValue(y)),
                      Date(DecimalValue(td), DecimalValue(tm), DecimalValue(ty)))
  {
    CalendarDateDayMonthYear(d, m, y);
    CalendarDateDayMonthYear(td, tm, ty);
  }

  /** Any date on or before an overdue date is overdue too. */
  lemma OverdueMonotone(a: string, b: string, today: string)
    requires CalendarDate(a).Some? && CalendarDate(b).Some?
    requires OnOrBefore(CalendarDate(a).value, CalendarDate(b).value)
    requires IsOverdue(b, today)
    ensures IsOverdue(a, today)
  {
  }

  /** The calendar check gets the example right that the sum check gets wrong. */
  lemma OverdueExample()
    ensures IsOverdue("31/1/2025", "1/2/2025")
    ensures IsOverdue("1/2/2025", "1/2/2025")
  {
    assert "1/2/2025" == "1" + "/" + "2" + "/" + "2025";
    assert "31/1/2025" == "31" + "/" + "1" + "/" + "2025";
    CalendarDateDayMonthYear("1", "2", "2025");
    CalendarDateDayMonthYear("31", "1", "2025");
  }

  // ---------------------------------------------------------------- search

  /**
   * The search predicate: the lower-cased query occurs in the lower-cased title
   * or, failing that, in the lower-cased description. `None` is the TypeError
   * raised when the title does not match and the description is absent.
   */
  function Matches(t: Store.ClientTask, search: string): (r: Option<bool>)
    ensures r == Some(true) <==> (IsSubstring(Lower(search), Lower(t.title))
      || (t.description.Some? && IsSubstring(Lower(search), Lower(t.description.value))))
    ensures r == None <==> !IsSubstring(Lower(search), Lower(t.title)) && t.description.None?
  {
    var q := Lower(search);
    if Contains(Lower(t.title), q) then Some(true)
    else if t.description.None? then None
    else Some(Contains(Lower(t.description.value), q))
  }

  /** `xs` is `ys` with some elements left out, the rest in their original order. */
  predicate IsSubsequence<T(==)>(xs: seq<T>, ys: seq<T>)
    decreases |ys|
  {
    xs == [] || (ys != [] && ((xs[0] == ys[0] && IsSubsequence(xs[1..], ys[1..])) || IsSubsequence(xs, ys[1..])))
  }

  /**
   * `tasks.filter(keep)` for a predicate that may throw (`None`): the filter throws
   * exactly when the predicate throws on some task; otherwise it keeps exactly the
   * tasks the predicate accepts.
   */
  function Filter(keep: Store.ClientTask -> Option<bool>, tasks: seq<Store.ClientTask>): (r: Option<seq<Store.ClientTask>>)
    ensures r.Some? <==> forall t :: t in tasks ==> keep(t).Some?
    ensures r.Some? ==> |r.value| <= |tasks|
    ensures r.Some? ==> forall t :: t in r.value <==> t in tasks && keep(t) == Some(true)
  {
    if tasks == [] then Some([])
    else
      var k := keep(tasks[0]);
      var rest := Filter(keep, tasks[1..]);
      if k.None? || rest.None? then None
      else Some(if k.value then [tasks[0]] + rest.value else rest.value)
  }

  /** What the filter keeps is a subsequence of its input. */
  lemma {:induction false} FilterSubsequence(keep: Store.ClientTask -> Option<bool>, tasks: seq<Store.ClientTask>)
    requires Filter(keep, tasks).Some?
    ensures IsSubsequence(Filter(keep, tasks).value, tasks)
  {
    if tasks != [] {
      assert Filter(keep, tasks[1..]).Some? by {
        forall t | t in tasks[1..] ensures keep(t).Some? {
          assert t in tasks;
        }
      }
      FilterSubsequence(keep, tasks[1..]);
      var rest := Filter(keep, tasks[1..]).value;
      if keep(tasks[0]) == Some(true) {
        assert ([tasks[0]] + rest)[1..] == rest;
      }
    }
  }

  /** The filter works piecewise, so the kept tasks stay in their original order. */
  lemma {:induction false} FilterAppend(keep: Store.ClientTask -> Option<bool>, a: seq<Store.ClientTask>, b: seq<Store.ClientTask>)
    requires Filter(keep, a).Some? && Filter(keep, b).Some?
    ensures Filter(keep, a + b) == Some(Filter(keep, a).value + Filter(keep, b).value)
  {
    if a == [] {
      assert a + b == b;
      assert Filter(keep, a) == Some([]);
      assert [] + Filter(keep, b).value == Filter(keep, b).value;
    } else {
      assert (a + b)[0] == a[0];
      assert (a + b)[1..] == a[1..] + b;
      assert a[0] in a;
      assert Filter(keep, a[1..]).Some? by {
        forall t | t in a[1..] ensures keep(t).Some? {
          assert t in a;
        }
      }
      FilterAppend(keep, a[1..], b);
      var x, y := Filter(keep, a[1..]).value, Filter(keep, b).value;
      assert [a[0]] + (x + y) == ([a[0]] + x) + y;
    }
  }

  /** A predicate that accepts every task keeps them all, in order. */
  lemma {:induction false} FilterKeepsAll(keep: Store.ClientTask -> Option<bool>, tasks: seq<Store.ClientTask>)
    requires forall t :: t in tasks ==> keep(t) == Some(true)
    ensures Filter(keep, tasks) == Some(tasks)
  {
    if tasks != [] {
      assert tasks[0] in tasks;
      FilterKeepsAll(keep, tasks[1..]);
      assert [tasks[0]] + tasks[1..] == tasks;
    }
  }

  /** Two predicates that agree on every task filter alike. */
  lemma {:induction false} FilterAgrees(k1: Store.ClientTask -> Option<bool>, k2: Store.ClientTask -> Option<bool>, tasks: seq<Store.ClientTask>)
    requires forall t :: t in tasks ==> k1(t) == k2(t)
    ensures Filter(k1, tasks) == Filter(k2, tasks)
  {
    if tasks != [] {
      assert tasks[0] in tasks;
      FilterAgrees(k1, k2, tasks[1..]);
    }
  }

  /**
   * The page's search: `tasks.filter(...)` with the search predicate. It throws
   * (`None`) exactly when the predicate throws on some task; otherwise it keeps
   * exactly the matching tasks.
   */
  function SearchFilter(tasks: seq<Store.ClientTask>, search: string): (r: Option<seq<Store.ClientTask>>)
    ensures r.Some? <==> forall t :: t in tasks ==> Matches(t, search).Some?
    ensures r.Some? ==> |r.value| <= |tasks|
    ensures r.Some? ==> forall t :: t in r.value <==> t in tasks && Matches(t, search) == Some(true)
  {
    Filter(t => Matches(t, search), tasks)
  }

  /** The search keeps an order-preserving subsequence of the tasks. */
  lemma SearchKeepsOrder(tasks: seq<Store.ClientTask>, search: string)
    requires SearchFilter(tasks, search).Some?
    ensures IsSubsequence(SearchFilter(tasks, search).value, tasks)
  {
    FilterSubsequence(t => Matches(t, search), tasks);
  }

  /** The search works piecewise, so the kept tasks stay in their original order. */
  lemma SearchFilterAppend(a: seq<Store.ClientTask>, b: seq<Store.ClientTask>, search: string)
    requires SearchFilter(a, search).Some? && SearchFilter(b, search).Some?
    ensures SearchFilter(a + b, search) == Some(SearchFilter(a, search).value + SearchFilter(b, search).value)
  {
    FilterAppend(t => Matches(t, search), a, b);
  }

  /** An empty search keeps every task (every title includes the empty string). */
  lemma EmptySearchKeepsAll(tasks: seq<Store.ClientTask>)
    ensures SearchFilter(tasks, "") == Some(tasks)
  {
    assert Lower("") == "";
    forall t | t in tasks ensures Matches(t, "") == Some(true) {
      ContainsEmpty(Lower(t.title));
    }
    FilterKeepsAll(t => Matches(t, ""), tasks);
  }

  /** Lower-casing is idempotent. */
  lemma LowerLower(s: string)
    ensures Lower(Lower(s)) == Lower(s)
  {
  }

  /** The search does not depend on the case of the query. */
  lemma SearchIgnoresQueryCase(tasks: seq<Store.ClientTask>, search: string)
    ensures SearchFilter(tasks, Lower(search)) == SearchFilter(tasks, search)
  {
    LowerLower(search);
    FilterAgrees(t => Matches(t, Lower(search)), t => Matches(t, search), tasks);
  }

  // ---------------------------------------------------------------- loader

  /** One task as the loader hands it to the page; the `id` property is not part of it. */
  function FormatTask(doc: Tasks.Doc, localize: string -> string): (t: Store.ClientTask)
    requires doc.record.tags.Some?
    ensures t.id.None? && t.docId == doc.id
    ensures t.title == doc.record.title && t.description == doc.record.description
    ensures t.priority == doc.record.priority && t.status == doc.record.status
    ensures t.dueDate == localize(doc.record.dueDate)
    ensures t.tags == ParseTags(doc.record.tags.value)
  {
    var r := doc.record;
    Store.ClientTask(None, doc.id, r.title, r.description, localize(r.dueDate), r.priority,
                     ParseTags(r.tags.value), r.status)
  }

  /**
   * `loader`: every document formatted for display, in the order the store gave
   * them. A failed read (`None`) or a document without tags (reading `includes`
   * of `undefined` throws) sends the loader to its `catch`, which returns `[]`.
   */
  function Loader(docs: Option<seq<Tasks.Doc>>, localize: string -> string): (tasks: seq<Store.ClientTask>)
    ensures docs.None? ==> tasks == []
    ensures docs.Some? && (exists i :: 0 <= i < |docs.value| && docs.value[i].record.tags.None?) ==> tasks == []
    ensures docs.Some? && (forall i :: 0 <= i < |docs.value| ==> docs.value[i].record.tags.Some?)
      ==> |tasks| == |docs.value|
          && forall i :: 0 <= i < |tasks| ==> tasks[i] == FormatTask(docs.value[i], localize)
    ensures forall t :: t in tasks ==> t.id.None?
  {
    if docs.None? then []
    else if exists i :: 0 <= i < |docs.value| && docs.value[i].record.tags.None? then []
    else
      var ds := docs.value;
      seq(|ds|, i requires 0 <= i < |ds| => FormatTask(ds[i], localize))
  }

  /**
   * The container removes by the `id` property, which loaded tasks do not carry,
   * while the page passes the `_id`: after the list is set from the loader,
   * a local delete removes nothing, whatever id it is given.
   */
  lemma LocalDeleteMissesLoadedTasks(docs: Option<seq<Tasks.Doc>>, localize: string -> string, id: Id)
    ensures Store.Removed(Loader(docs, localize), id) == Loader(docs, localize)
  {
    Store.CountIdZero(Loader(docs, localize), id);
    Store.RemovedAbsent(Loader(docs, localize), id);
  }

  // ---------------------------------------------------------------- modal and action

  /** The fields of a submitted form the page's `action` reads. */
  datatype Form = Form(action: Option<string>, id: Option<string>)

  const DeleteAction := "deleteTask"

  /** The page state behind the delete-confirmation modal. */
  class IndexPage {
    var modalActive: bool
    var selectedTask: Option<Id>
    /** The forms handed to `fetcher.submit`, oldest first. */
    var submitted: seq<Form>
    /** The task list container the page deletes from. */
    const store: Store.TaskList

    /** The modal is open exactly while a task is selected. */
    ghost predicate Valid()
      reads this
    {
      modalActive <==> selectedTask.Some?
    }

    constructor (store: Store.TaskList)
      ensures Valid() && !modalActive && selectedTask == None && submitted == []
      ensures this.store == store
    {
      modalActive, selectedTask, submitted := false, None, [];
      this.store := store;
    }

    /** `openModal(id)`: select the task and show the modal. */
    method OpenModal(id: Id)
      modifies this
      ensures Valid() && modalActive && selectedTask == Some(id)
      ensures submitted == old(submitted)
    {
      selectedTask := Some(id);
      modalActive := true;
    }

    /** `closeModal()`: hide the modal and drop the selection. */
    method CloseModal()
      modifies this
      ensures Valid() && !modalActive && selectedTask == None
      ensures submitted == old(submitted)
    {
      modalActive := false;
      selectedTask := None;
    }

    /**
     * `handleDelete()`: with a (truthy) selection, delete it from the container,
     * submit one delete form carrying it, and close the modal; otherwise do nothing.
     */
    method HandleDelete()
      requires Valid()
      modifies this, store
      ensures Valid()
      ensures !Truthy(old(selectedTask)) ==>
        modalActive == old(modalActive) && selectedTask == old(selectedTask)
        && submitted == old(submitted) && store.taskList == old(store.taskList)
      ensures Truthy(old(selectedTask)) ==>
        store.taskList == Store.Removed(old(store.taskList), old(selectedTask).value)
        && submitted == old(submitted) + [Form(Some(DeleteAction), old(selectedTask))]
        && !modalActive && selectedTask == None
    {
      if Truthy(selectedTask) {
        var id := selectedTask.value;
        store.DeleteTask(id);
        submitted := submitted + [Form(Some(DeleteAction), Some(id))];
        CloseModal();
      }
    }
  }

  /** `action`: only a form whose action is "deleteTask" reaches the delete handler. */
  method Action(form: Form, db: Tasks.TaskDb, fault: Option<string>) returns (r: Option<Tasks.Response>)
    modifies db
    ensures form.action != Some(DeleteAction) ==> r == None && db.records == old(db.records)
    ensures form.action == Some(DeleteAction) ==>
      r == Some(Tasks.DeleteOutcome(old(db.records), form.id, fault).resp)
      && db.records == Tasks.DeleteOutcome(old(db.records), form.id, fault).records
  {
    if form.action == Some(DeleteAction) {
      var resp := db.Delete(form.id, fault);
      r := Some(resp);
    } else {
      r := None;
    }
  }

  /**
   * Confirming the modal, followed by the server handling the form the page submitted:
   * the selected document is gone from the store, the container holds no entry whose
   * `id` is the selection, and the answer is 200.
   */
  method ConfirmDelete(page: IndexPage, db: Tasks.TaskDb) returns (r: Option<Tasks.Response>)
    requires page.Valid()
    modifies page, page.store, db
    ensures page.Valid()
    ensures !Truthy(old(page.selectedTask)) ==>
      r == None && db.records == old(db.records)
      && page.store.taskList == old(page.store.taskList) && page.submitted == old(page.submitted)
      && page.modalActive == old(page.modalActive) && page.selectedTask == old(page.selectedTask)
    ensures Truthy(old(page.selectedTask)) ==>
      r == Some(Tasks.Response(200, Tasks.Deleted))
      && old(page.selectedTask).value !in db.records
      && db.records.Keys <= old(db.records).Keys
      && (forall k :: k in old(db.records) && k != old(page.selectedTask).value
            ==> k in db.records && db.records[k] == old(db.records)[k])
      && page.store.taskList == Store.Removed(old(page.store.taskList), old(page.selectedTask).value)
      && Store.CountId(page.store.taskList, old(page.selectedTask).value) == 0
      && page.submitted == old(page.submitted) + [Form(Some(DeleteAction), old(page.selectedTask))]
      && !page.modalActive && page.selectedTask == None
  {
    var selected := page.selectedTask;
    var before := |page.submitted|;
    page.HandleDelete();
    if Truthy(selected) {
      var form := page.submitted[before];
      r := Action(form, db, None);
      Store.CountIdZero(page.store.taskList, selected.value);
    } else {
      r := None;
    }
  }
}
