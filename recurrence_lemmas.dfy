/**
 * What the translator's matchers and rules amount to: each matcher finds
 * exactly the text its regular expression describes, each phrase family is
 * translated to its rule, and the order in which the patterns are tried
 * decides the phrases that more than one pattern matches.
 */
module RecurrenceLemmas {
  import opened Wrappers
  import opened Text
  import opened Lexicon
  import opened Recurrence

  /** Text that starts with a table word starts with a letter, so with neither a blank nor a digit. */
  lemma LetterInitial(x: string, words: seq<string>)
    requires Words(words) && Lower(x) in words
    ensures x != [] && IsLetter(x[0]) && !IsSpace(x[0]) && !IsDigit(x[0])
  {
    WordStartsWithLetter(words, x);
  }

  /** The lead `\s*(tag)\s+` is found in full in front of any text that does not start with a blank. */
  lemma MatchLeadExact(tags: seq<string>, lead: Lead, t: string)
    requires Words(tags) && PrefixFree(tags)
    requires lead.Valid(tags)
    requires t == [] || !IsSpace(t[0])
    ensures MatchLead(tags, lead.Matched() + t) == Some((lead, t))
  {
    LetterInitial(lead.keyword, tags);
    assert lead.Matched() + t == lead.indent + (lead.keyword + (lead.gap + t));
    TakeRunExact(Space, lead.indent, lead.keyword + (lead.gap + t));
    MatchWordExact(tags, lead.keyword, lead.gap + t);
    TakeRunExact(Space, lead.gap, t);
  }

  /** The interval pattern, past its lead, recognises each of its matches. */
  lemma MatchIntervalAfterExact(m: IntervalMatch, rest: string)
    requires m.Shaped()
    ensures MatchIntervalAfter(m.lead, m.Tail() + rest) == Some((m, rest))
  {
    hide MatchIntervalAfter;
    match m.count
    case None =>
      assert m.Tail() + rest == m.unit + rest;
      UncountedAfterExact(m.lead, m.unit, rest);
    case Some(c) =>
      assert m.Tail() + rest == c.digits + c.gap + (m.unit + rest);
      CountedAfterExact(m.lead, c, m.unit, rest);
  }

  /** A unit word alone, past the lead, is an interval of one. */
  lemma UncountedAfterExact(lead: Lead, unit: string, rest: string)
    requires Lower(unit) in Units
    ensures MatchIntervalAfter(lead, unit + rest) == Some((IntervalMatch(lead, None, unit), rest))
  {
    hide TakeRun, MatchWord;
    TablesAreWords();
    TablesArePrefixFree();
    LetterInitial(unit, Units);
    MatchWordExact(Units, unit, rest);
    assert [] + (unit + rest) == unit + rest;
    TakeRunExact(Digit, [], unit + rest);
  }

  /** A count, its blanks and a unit word, past the lead, are an interval of that count. */
  lemma CountedAfterExact(lead: Lead, c: Count, unit: string, rest: string)
    requires c.digits != [] && All(Digit, c.digits) && c.gap != [] && All(Space, c.gap)
    requires Lower(unit) in Units
    ensures MatchIntervalAfter(lead, c.digits + c.gap + (unit + rest)) == Some((IntervalMatch(lead, Some(c), unit), rest))
  {
    hide TakeRun, MatchWord;
    TablesAreWords();
    TablesArePrefixFree();
    LetterInitial(unit, Units);
    MatchWordExact(Units, unit, rest);
    assert c.digits + c.gap + (unit + rest) == c.digits + (c.gap + (unit + rest));
    TakeRunExact(Digit, c.digits, c.gap + (unit + rest));
    TakeRunExact(Space, c.gap, unit + rest);
  }

  /** `RE_INTERVAL.match` succeeds on each of its matches and returns that match. */
  lemma MatchIntervalExact(m: IntervalMatch, rest: string)
    requires m.Valid()
    ensures MatchInterval(m.Matched() + rest) == Some((m, rest))
  {
    TablesAreWords();
    TablesArePrefixFree();
    var t := m.Tail() + rest;
    JoinLead(m.lead.Matched(), m.Tail(), rest, t);
    LetterInitial(m.unit, Units);
    assert t[0] == (match m.count case None => m.unit[0] case Some(c) => c.digits[0]);
    MatchLeadExact(IntervalTags, m.lead, t);
    MatchIntervalAfterExact(m, rest);
  }

  /** The numeric-date pattern, past its lead, recognises each of its matches that no digit follows. */
  lemma MatchNumericDateAfterExact(m: NumericDateMatch, rest: string)
    requires m.Shaped()
    requires rest == [] || !IsDigit(rest[0])
    ensures MatchNumericDateAfter(m.lead, m.Tail() + rest) == Some((m, rest))
  {
    hide TakeRun, MatchWord, MatchOrdinalSuffix;
    var w := m.day + rest;
    var v := [m.sep] + (m.gap2 + w);
    var u := m.gap1 + v;
    assert m.Tail() + rest == m.month + u;
    assert u[0] == (if m.gap1 == [] then m.sep else m.gap1[0]);
    TakeRunExact(Digit, m.month, u);
    TakeRunExact(Space, m.gap1, v);
    assert v[1..] == m.gap2 + w;
    TakeRunExact(Space, m.gap2, w);
    TakeRunExact(Digit, m.day, rest);
  }

  /** `RE_EVERY_MMDD.match` finds each of its matches in full when no digit follows. */
  lemma MatchNumericDateExact(m: NumericDateMatch, rest: string)
    requires m.Valid()
    requires rest == [] || !IsDigit(rest[0])
    ensures MatchNumericDate(m.Matched() + rest) == Some((m, rest))
  {
    TablesAreWords();
    TablesArePrefixFree();
    var t := m.Tail() + rest;
    JoinLead(m.lead.Matched(), m.Tail(), rest, t);
    assert t[0] == m.month[0];
    MatchLeadExact(EveryTag, m.lead, t);
    MatchNumericDateAfterExact(m, rest);
  }

  lemma MatchMonthDayAfterExact(m: MonthDayMatch, rest: string)
    requires m.Shaped()
    requires rest == [] || !IsDigit(rest[0])
    ensures MatchMonthDayAfter(m.lead, m.Tail() + rest) == Some((m, rest))
  {
    hide TakeRun, MatchWord, MatchOrdinalSuffix;
    TablesArePrefixFree();
    var w := m.day + rest;
    var v := m.gap + w;
    var u := m.tail + v;
    assert m.Tail() + rest == m.month + u;
    MatchWordExact(Months, m.month, u);
    TakeRunExact(Word, m.tail, v);
    TakeRunExact(Space, m.gap, w);
    TakeRunExact(Digit, m.day, rest);
  }

  /** `RE_EVERY_MMMDD.match` finds each of its matches in full when no digit follows. */
  lemma MatchMonthDayExact(m: MonthDayMatch, rest: string)
    requires m.Valid()
    requires rest == [] || !IsDigit(rest[0])
    ensures MatchMonthDay(m.Matched() + rest) == Some((m, rest))
  {
    TablesAreWords();
    TablesArePrefixFree();
    var t := m.Tail() + rest;
    JoinLead(m.lead.Matched(), m.Tail(), rest, t);
    LetterInitial(m.month, Months);
    assert t[0] == m.month[0];
    MatchLeadExact(EveryTag, m.lead, t);
    MatchMonthDayAfterExact(m, rest);
  }

  lemma MatchDayMonthAfterExact(m: DayMonthMatch, rest: string)
    requires m.Shaped()
    ensures MatchDayMonthAfter(m.lead, m.Tail() + rest) == Some((m, rest))
  {
    hide TakeRun, MatchWord, MatchOrdinalSuffix;
    TablesAreWords();
    TablesArePrefixFree();
    LetterInitial(m.month, Months);
    var v := m.month + rest;
    var u := m.gap + v;
    assert m.Tail() + rest == m.day + u;
    TakeRunExact(Digit, m.day, u);
    TakeRunExact(Space, m.gap, v);
    MatchWordExact(Months, m.month, rest);
  }

  /** `RE_EVERY_DDMMM.match` finds each of its matches in full, whatever follows. */
  lemma MatchDayMonthExact(m: DayMonthMatch, rest: string)
    requires m.Valid()
    ensures MatchDayMonth(m.Matched() + rest) == Some((m, rest))
  {
    TablesAreWords();
    TablesArePrefixFree();
    var t := m.Tail() + rest;
    JoinLead(m.lead.Matched(), m.Tail(), rest, t);
    assert t[0] == m.day[0];
    MatchLeadExact(EveryTag, m.lead, t);
    MatchDayMonthAfterExact(m, rest);
  }

  /** The optional suffix is read exactly when a blank follows it. */
  lemma OrdinalSuffixExact(suffix: string, u: string)
    requires suffix == [] || Lower(suffix) in OrdinalSuffixes
    requires u != [] && IsSpace(u[0])
    ensures MatchOrdinalSuffix(suffix + u) == (suffix, u)
  {
    TablesAreWords();
    TablesArePrefixFree();
    if suffix == [] {
      assert suffix + u == u;
      MatchWordNotLetter(OrdinalSuffixes, u);
    } else {
      MatchWordExact(OrdinalSuffixes, suffix, u);
    }
  }

  lemma MatchNthWeekdayAfterExact(m: NthWeekdayMatch, rest: string)
    requires m.Shaped()
    ensures MatchNthWeekdayAfter(m.lead, m.Tail() + rest) == Some((m, rest))
  {
    hide TakeRun, MatchWord, MatchOrdinalSuffix;
    TablesAreWords();
    TablesArePrefixFree();
    LetterInitial(m.weekday, Weekdays);
    var t := m.Tail() + rest;
    var v := m.weekday + rest;
    var u := m.gap + v;
    assert t[1..] == m.suffix + u;
    OrdinalSuffixExact(m.suffix, u);
    TakeRunExact(Space, m.gap, v);
    MatchWordExact(Weekdays, m.weekday, rest);
  }

  /** `RE_EVERY_NTH_DAYOFWEEK.match` finds each of its matches in full, whatever follows. */
  lemma MatchNthWeekdayExact(m: NthWeekdayMatch, rest: string)
    requires m.Valid()
    ensures MatchNthWeekday(m.Matched() + rest) == Some((m, rest))
  {
    TablesAreWords();
    TablesArePrefixFree();
    var t := m.Tail() + rest;
    JoinLead(m.lead.Matched(), m.Tail(), rest, t);
    assert t[0] == m.ordinal;
    MatchLeadExact(EveryTag, m.lead, t);
    MatchNthWeekdayAfterExact(m, rest);
  }

  /** `RE_EVERY_DD.match` finds each of its matches in full when no digit follows. */
  lemma MatchDayOfMonthExact(m: DayOfMonthMatch, rest: string)
    requires m.Valid()
    requires rest == [] || !IsDigit(rest[0])
    ensures MatchDayOfMonth(m.Matched() + rest) == Some((m, rest))
  {
    TablesAreWords();
    TablesArePrefixFree();
    var t := m.Tail() + rest;
    JoinLead(m.lead.Matched(), m.Tail(), rest, t);
    assert t[0] == m.day[0];
    MatchLeadExact(EveryTag, m.lead, t);
    TakeRunExact(Digit, m.day, rest);
  }

  /** Digits hold no lower-case letter. */
  lemma DigitsNoLower(s: string)
    requires All(Digit, s)
    ensures NoLower(s)
  {
  }

  /** The unit word, upper-cased with DAY spelled DAI, plus "LY" names the unit's frequency. */
  lemma UnitSpelling(unit: string)
    requires Lower(unit) in Units
    ensures var f := Upper(unit);
            var freq := if f == "DAY" then "DAI" else f;
            freq + "LY" == FreqName(UnitFreq(Lower(unit))) && NoLower(freq)
  {
    var w := Lower(unit);
    UpperOfLower(unit, w);
    if w == "day" {
      assert Upper(w) == "DAY";
      assert NoLower("DAI");
    } else if w == "week" {
      assert Upper(w) == "WEEK";
    } else if w == "month" {
      assert Upper(w) == "MONTH";
    } else {
      assert Upper(w) == "YEAR";
    }
  }

  /** The translator's choice when the interval pattern matches. */
  lemma ParseWhenInterval(s: string, m: IntervalMatch, rest: string)
    requires s != [] && MatchInterval(s) == Some((m, rest))
    ensures var f := Upper(m.unit);
            var freq := if f == "DAY" then "DAI" else f;
            var interval := match m.count case None => "1" case Some(c) => c.digits;
            ParseRecurrence(s) == Upper("FREQ=" + freq + "LY;INTERVAL=" + interval)
  {
  }

  /** A phrase is never empty once the lead `\s*(tag)\s+` is in front of it. */
  lemma LeadNonEmpty(tags: seq<string>, lead: Lead, t: string)
    requires Words(tags) && lead.Valid(tags)
    ensures lead.Matched() + t != []
  {
    LetterInitial(lead.keyword, tags);
    assert |lead.Matched() + t| >= |lead.keyword|;
  }

  /** An interval phrase becomes FREQ=<unit>LY;INTERVAL=<count, or 1>. */
  lemma ParseIntervalPhrase(m: IntervalMatch, rest: string)
    requires m.Valid()
    ensures ParseRecurrence(m.Matched() + rest) == Render(IntervalRule(m))
  {
    hide ParseRecurrence, MatchInterval;
    TablesAreWords();
    var s := m.Matched() + rest;
    LeadNonEmpty(IntervalTags, m.lead, m.Tail() + rest);
    JoinLead(m.lead.Matched(), m.Tail(), rest, m.Tail() + rest);
    MatchIntervalExact(m, rest);
    ParseWhenInterval(s, m, rest);
    var f := Upper(m.unit);
    var freq := if f == "DAY" then "DAI" else f;
    var interval := match m.count case None => "1" case Some(c) => c.digits;
    UnitSpelling(m.unit);
    assert NoLower(interval) by {
      match m.count
      case None =>
      case Some(c) => DigitsNoLower(c.digits);
    }
    IntervalText(freq, interval);
    IntervalRendering(UnitFreq(Lower(m.unit)), interval);
  }

  /** The text the translator builds for an interval phrase is already upper-case when its parts are. */
  lemma IntervalText(freq: string, interval: string)
    requires NoLower(freq) && NoLower(interval)
    ensures var x := "FREQ=" + freq + "LY;INTERVAL=" + interval;
            Upper(x) == x && x == "FREQ=" + (freq + "LY") + ";INTERVAL=" + interval
  {
    var x := "FREQ=" + freq + "LY;INTERVAL=" + interval;
    assert NoLower("FREQ=") && NoLower("LY;INTERVAL=");
    NoLowerConcat("FREQ=", freq);
    NoLowerConcat("FREQ=" + freq, "LY;INTERVAL=");
    NoLowerConcat("FREQ=" + freq + "LY;INTERVAL=", interval);
    UpperFixed(x);
    assert "LY;INTERVAL=" == "LY" + ";INTERVAL=";
  }

  lemma IntervalRendering(f: Freq, interval: string)
    ensures Render(Rule(f, Some(interval), None, None, None)) == "FREQ=" + FreqName(f) + ";INTERVAL=" + interval
  {
    assert Part("INTERVAL", Some(interval)) == ";INTERVAL=" + interval;
  }

  /** The rule text of the yearly families is upper-case already and renders their rule. */
  lemma YearlyText(month: string, day: string)
    requires NoLower(month) && NoLower(day)
    ensures var x := "FREQ=YEARLY;BYMONTH=" + month + ";BYMONTHDAY=" + day;
            Upper(x) == x && x == Render(Rule(Yearly, None, None, Some(month), Some(day)))
  {
    YearlyUpper(month, day);
    YearlyRendering(month, day);
  }

  lemma YearlyUpper(month: string, day: string)
    requires NoLower(month) && NoLower(day)
    ensures var x := "FREQ=YEARLY;BYMONTH=" + month + ";BYMONTHDAY=" + day;
            Upper(x) == x
  {
    var head := "FREQ=YEARLY;BYMONTH=";
    var mid := ";BYMONTHDAY=";
    assert NoLower(head) && NoLower(mid);
    NoLowerConcat(head, month);
    NoLowerConcat(head + month, mid);
    NoLowerConcat(head + month + mid, day);
    UpperFixed(head + month + mid + day);
  }

  lemma YearlyRendering(month: string, day: string)
    ensures Render(Rule(Yearly, None, None, Some(month), Some(day))) == "FREQ=YEARLY;BYMONTH=" + month + ";BYMONTHDAY=" + day
  {
    var head := "FREQ=" + FreqName(Yearly) + Part("INTERVAL", None) + Part("BYDAY", None);
    assert head == "FREQ=YEARLY";
    assert Part("BYMONTH", Some(month)) == ";BYMONTH=" + month;
    assert Part("BYMONTHDAY", Some(day)) == ";BYMONTHDAY=" + day;
    assert "FREQ=YEARLY;BYMONTH=" == head + ";BYMONTH=";
  }

  /** The rule text of the nth-weekday family renders its rule once upper-cased. */
  lemma MonthlyByDayText(ordinal: char, weekday: string)
    requires IsDigit(ordinal)
    ensures Upper("FREQ=MONTHLY;INTERVAL=1;BYDAY=" + [ordinal] + weekday)
            == Render(Rule(Monthly, Some("1"), Some([ordinal] + Upper(weekday)), None, None))
  {
    var head := "FREQ=MONTHLY;INTERVAL=1;BYDAY=" + [ordinal];
    assert NoLower(head);
    UpperFixed(head);
    UpperConcat(head, weekday);
    MonthlyByDayRendering([ordinal] + Upper(weekday));
  }

  lemma MonthlyByDayRendering(byDay: string)
    ensures Render(Rule(Monthly, Some("1"), Some(byDay), None, None)) == "FREQ=MONTHLY;INTERVAL=1;BYDAY=" + byDay
  {
    assert Part("INTERVAL", Some("1")) == ";INTERVAL=1";
    assert Part("BYDAY", Some(byDay)) == ";BYDAY=" + byDay;
    assert "FREQ=MONTHLY;INTERVAL=1;BYDAY=" == "FREQ=" + "MONTHLY" + ";INTERVAL=1" + ";BYDAY=";
  }

  /** The rule text of the day-of-month family is upper-case already and renders its rule. */
  lemma MonthlyDayText(day: string)
    requires NoLower(day)
    ensures var x := "FREQ=MONTHLY;INTERVAL=1;BYMONTHDAY=" + day;
            Upper(x) == x && x == Render(Rule(Monthly, Some("1"), None, None, Some(day)))
  {
    assert NoLower("FREQ=MONTHLY;INTERVAL=1;BYMONTHDAY=");
    NoLowerConcat("FREQ=MONTHLY;INTERVAL=1;BYMONTHDAY=", day);
    UpperFixed("FREQ=MONTHLY;INTERVAL=1;BYMONTHDAY=" + day);
    MonthlyDayRendering(day);
  }

  lemma MonthlyDayRendering(day: string)
    ensures Render(Rule(Monthly, Some("1"), None, None, Some(day))) == "FREQ=MONTHLY;INTERVAL=1;BYMONTHDAY=" + day
  {
    var head := "FREQ=" + FreqName(Monthly) + Part("INTERVAL", Some("1")) + Part("BYDAY", None) + Part("BYMONTH", None);
    assert head == "FREQ=MONTHLY;INTERVAL=1";
    assert Part("BYMONTHDAY", Some(day)) == ";BYMONTHDAY=" + day;
    assert "FREQ=MONTHLY;INTERVAL=1;BYMONTHDAY=" == head + ";BYMONTHDAY=";
  }

  /**
   * Once `every` and its blank run are read, every pattern is decided by what
   * follows: each matcher behaves as its post-lead part on the rest.
   */
  lemma EveryLead(lead: Lead, t: string)
    requires lead.Valid(EveryTag)
    requires t == [] || !IsSpace(t[0])
    ensures var s := lead.Matched() + t;
            && s != []
            && MatchInterval(s) == MatchIntervalAfter(lead, t)
            && MatchNumericDate(s) == MatchNumericDateAfter(lead, t)
            && MatchMonthDay(s) == MatchMonthDayAfter(lead, t)
            && MatchDayMonth(s) == MatchDayMonthAfter(lead, t)
            && MatchNthWeekday(s) == MatchNthWeekdayAfter(lead, t)
            && MatchDayOfMonth(s) == MatchDayOfMonthAfter(lead, t)
  {
    TablesAreWords();
    TablesArePrefixFree();
    LetterInitial(lead.keyword, EveryTag);
    assert Lower(lead.keyword) == "every";
    assert lead.Valid(IntervalTags);
    MatchLeadExact(EveryTag, lead, t);
    MatchLeadExact(IntervalTags, lead, t);
  }

  /** Once `after` or `every` and its blank run are read, the interval pattern is decided by what follows. */
  lemma IntervalLead(lead: Lead, t: string)
    requires lead.Valid(IntervalTags)
    requires t == [] || !IsSpace(t[0])
    ensures MatchInterval(lead.Matched() + t) == MatchIntervalAfter(lead, t)
  {
    TablesAreWords();
    TablesArePrefixFree();
    MatchLeadExact(IntervalTags, lead, t);
  }

  /** The interval pattern fails past a digit run when no unit word stands after the blanks. */
  lemma IntervalAfterMissCounted(lead: Lead, digits: string, gap: string, v: string)
    requires digits != [] && All(Digit, digits) && All(Space, gap)
    requires v == [] || (!IsSpace(v[0]) && (gap != [] || !IsDigit(v[0])))
    requires MatchWord(Units, v) == None
    ensures MatchIntervalAfter(lead, digits + gap + v) == None
  {
    hide TakeRun, MatchWord, MatchOrdinalSuffix;
    assert digits + gap + v == digits + (gap + v);
    assert gap + v == [] || !IsDigit((gap + v)[0]);
    TakeRunExact(Digit, digits, gap + v);
    TakeRunExact(Space, gap, v);
  }

  /** The interval pattern fails when no blank follows its digit run. */
  lemma IntervalAfterMissUnspaced(lead: Lead, digits: string, v: string)
    requires digits != [] && All(Digit, digits)
    requires v == [] || (!IsDigit(v[0]) && !IsSpace(v[0]))
    ensures MatchIntervalAfter(lead, digits + v) == None
  {
    hide TakeRun, MatchWord, MatchOrdinalSuffix;
    TakeRunExact(Digit, digits, v);
    assert [] + v == v;
    TakeRunExact(Space, [], v);
  }

  /** The interval pattern fails on a word that is not a unit. */
  lemma IntervalAfterMissWord(lead: Lead, t: string)
    requires t != [] && IsLetter(t[0])
    requires MatchWord(Units, t) == None
    ensures MatchIntervalAfter(lead, t) == None
  {
    hide TakeRun, MatchWord, MatchOrdinalSuffix;
    assert [] + t == t;
    TakeRunExact(Digit, [], t);
  }

  /**
   * `v` does not go on as `[/-]\s*\d`: no separator opens it, or no digit
   * follows the separator and the blanks after it.
   */
  predicate NoDateSeparator(v: string) {
    v == [] || (v[0] != '/' && v[0] != '-') || (var w := TakeRun(Space, v[1..]).1; w == [] || !IsDigit(w[0]))
  }

  /** Text that does not open with `/` or `-` does not go on as a date. */
  lemma NoSeparator(v: string)
    requires v == [] || (v[0] != '/' && v[0] != '-')
    ensures NoDateSeparator(v)
  {
  }

  /** The numeric-date pattern fails unless a separator and then a digit follow the first digits and blanks. */
  lemma NumericDateAfterMiss(lead: Lead, digits: string, gap: string, v: string)
    requires All(Digit, digits) && All(Space, gap)
    requires v == [] || (!IsSpace(v[0]) && (gap != [] || !IsDigit(v[0])))
    requires NoDateSeparator(v)
    ensures MatchNumericDateAfter(lead, digits + gap + v) == None
  {
    hide TakeRun, MatchWord, MatchOrdinalSuffix;
    assert digits + gap + v == digits + (gap + v);
    assert gap + v == [] || !IsDigit((gap + v)[0]);
    TakeRunExact(Digit, digits, gap + v);
    TakeRunExact(Space, gap, v);
    if v != [] && (v[0] == '/' || v[0] == '-') {
      var w := TakeRun(Space, v[1..]).1;
      assert [] + w == w;
      TakeRunExact(Digit, [], w);
    }
  }

  /** The month-first pattern fails on text that starts with a digit. */
  lemma MonthDayAfterMissDigit(lead: Lead, t: string)
    requires t != [] && IsDigit(t[0])
    ensures MatchMonthDayAfter(lead, t) == None
  {
    TablesAreWords();
    MatchWordNotLetter(Months, t);
  }

  /** The day-first pattern fails unless digits, blanks and a month name follow one another. */
  lemma DayMonthAfterMiss(lead: Lead, digits: string, gap: string, v: string)
    requires All(Digit, digits) && All(Space, gap)
    requires v == [] || (!IsSpace(v[0]) && (gap != [] || !IsDigit(v[0])))
    requires digits == [] || gap == [] || MatchWord(Months, v) == None
    ensures MatchDayMonthAfter(lead, digits + gap + v) == None
  {
    hide TakeRun, MatchWord, MatchOrdinalSuffix;
    assert digits + gap + v == digits + (gap + v);
    assert gap + v == [] || !IsDigit((gap + v)[0]);
    TakeRunExact(Digit, digits, gap + v);
    TakeRunExact(Space, gap, v);
  }

  /** The nth-weekday pattern fails when its ordinal is followed by neither a letter nor a blank. */
  lemma NthWeekdayAfterMiss(lead: Lead, t: string)
    requires t == [] || !('1' <= t[0] <= '5') || |t| == 1 || (!IsLetter(t[1]) && !IsSpace(t[1]))
    ensures MatchNthWeekdayAfter(lead, t) == None
  {
    hide TakeRun, MatchWord, MatchOrdinalSuffix;
    if t != [] && '1' <= t[0] <= '5' {
      TablesAreWords();
      MatchWordNotLetter(OrdinalSuffixes, t[1..]);
      assert [] + t[1..] == t[1..];
      TakeRunExact(Space, [], t[1..]);
    }
  }

  /** The translator's choice when the numeric-date pattern is the first to match. */
  lemma ParseWhenNumericDate(s: string, m: NumericDateMatch, rest: string)
    requires s != [] && MatchInterval(s) == None && MatchNumericDate(s) == Some((m, rest))
    ensures ParseRecurrence(s) == Upper("FREQ=YEARLY;BYMONTH=" + m.month + ";BYMONTHDAY=" + m.day)
  {
  }

  /** The translator's choice when a month-name pattern is the first to match. */
  lemma ParseWhenNamedMonth(s: string, month: string, day: string)
    requires s != [] && MatchInterval(s) == None && MatchNumericDate(s) == None
    requires MatchNamedMonth(s) == Some((month, day))
    ensures Lower(month) in MonthNumber
    ensures ParseRecurrence(s) == Upper("FREQ=YEARLY;BYMONTH=" + DecimalString(MonthNumber[Lower(month)]) + ";BYMONTHDAY=" + day)
  {
    MonthTableMatchesPattern();
  }

  /** On a numeric-date phrase the interval pattern fails and the numeric-date pattern succeeds. */
  lemma NumericDateFirst(m: NumericDateMatch, rest: string)
    requires m.Valid()
    requires rest == [] || !IsDigit(rest[0])
    ensures var s := m.Matched() + rest;
            s != [] && MatchInterval(s) == None && MatchNumericDate(s) == Some((m, rest))
  {
    hide MatchInterval, MatchNumericDate, MatchMonthDay, MatchDayMonth, MatchNthWeekday, MatchDayOfMonth, MatchLead;
    hide MatchIntervalAfter, MatchNumericDateAfter, MatchMonthDayAfter, MatchDayMonthAfter, MatchNthWeekdayAfter, MatchDayOfMonthAfter;
    TablesAreWords();
    var v := [m.sep] + m.gap2 + m.day + rest;
    var t := m.Tail() + rest;
    assert t == m.month + m.gap1 + v;
    assert t[0] == m.month[0];
    JoinLead(m.lead.Matched(), m.Tail(), rest, t);
    EveryLead(m.lead, t);
    MatchWordNotLetter(Units, v);
    IntervalAfterMissCounted(m.lead, m.month, m.gap1, v);
    MatchNumericDateAfterExact(m, rest);
  }

  /** A numeric date phrase becomes FREQ=YEARLY;BYMONTH=<first number>;BYMONTHDAY=<second number>. */
  lemma ParseNumericDatePhrase(m: NumericDateMatch, rest: string)
    requires m.Valid()
    requires rest == [] || !IsDigit(rest[0])
    ensures ParseRecurrence(m.Matched() + rest) == Render(NumericDateRule(m))
  {
    hide ParseRecurrence, MatchInterval, MatchNumericDate, MatchNamedMonth, MatchMonthDay, MatchDayMonth, MatchNthWeekday, MatchDayOfMonth;
    NumericDateFirst(m, rest);
    ParseWhenNumericDate(m.Matched() + rest, m, rest);
    DigitsNoLower(m.month);
    DigitsNoLower(m.day);
    YearlyText(m.month, m.day);
  }

  /** On a month-first phrase the interval and numeric-date patterns fail and the month-first pattern succeeds. */
  lemma MonthDayFirst(m: MonthDayMatch, rest: string)
    requires m.Valid()
    requires rest == [] || !IsDigit(rest[0])
    ensures var s := m.Matched() + rest;
            s != [] && MatchInterval(s) == None && MatchNumericDate(s) == None
            && MatchNamedMonth(s) == Some((m.month, m.day))
  {
    hide MatchInterval, MatchNumericDate, MatchMonthDay, MatchDayMonth, MatchLead;
    hide MatchIntervalAfter, MatchNumericDateAfter, MatchMonthDayAfter, MatchDayMonthAfter;
    var t := m.Tail() + rest;
    MonthDayOthersMiss(m, rest);
    JoinLead(m.lead.Matched(), m.Tail(), rest, t);
    EveryLead(m.lead, t);
    MatchMonthDayAfterExact(m, rest);
  }

  /** Past the lead of a month-first phrase, the interval and numeric-date patterns fail. */
  lemma MonthDayOthersMiss(m: MonthDayMatch, rest: string)
    requires m.Shaped()
    ensures var t := m.Tail() + rest;
            && t != [] && !IsSpace(t[0])
            && MatchIntervalAfter(m.lead, t) == None && MatchNumericDateAfter(m.lead, t) == None
  {
    hide MatchIntervalAfter, MatchNumericDateAfter, MatchWord, TakeRun;
    TablesAreWords();
    LetterInitial(m.month, Months);
    var u := m.tail + m.gap + m.day + rest;
    var t := m.Tail() + rest;
    assert t == m.month + u;
    assert t[0] == m.month[0];
    UnitsAreNotMonths();
    MatchWordMiss(Units, m.month, u);
    IntervalAfterMissWord(m.lead, t);
    assert [] + [] + t == t;
    NumericDateAfterMiss(m.lead, [], [], t);
  }

  /** A month-first phrase becomes FREQ=YEARLY;BYMONTH=<month number>;BYMONTHDAY=<day>. */
  lemma ParseMonthDayPhrase(m: MonthDayMatch, rest: string)
    requires m.Valid()
    requires rest == [] || !IsDigit(rest[0])
    ensures Lower(m.month) in MonthNumber
    ensures ParseRecurrence(m.Matched() + rest) == Render(NamedMonthRule(m.month, m.day))
  {
    hide ParseRecurrence, MatchInterval, MatchNumericDate, MatchNamedMonth, MatchMonthDay, MatchDayMonth, MatchNthWeekday, MatchDayOfMonth;
    MonthDayFirst(m, rest);
    ParseWhenNamedMonth(m.Matched() + rest, m.month, m.day);
    var number := DecimalString(MonthNumber[Lower(m.month)]);
    DigitsNoLower(number);
    DigitsNoLower(m.day);
    YearlyText(number, m.day);
  }

  /** On a day-first phrase the patterns tried before it fail and it succeeds. */
  lemma DayMonthFirst(m: DayMonthMatch, rest: string)
    requires m.Valid()
    ensures var s := m.Matched() + rest;
            s != [] && MatchInterval(s) == None && MatchNumericDate(s) == None
            && MatchNamedMonth(s) == Some((m.month, m.day))
  {
    hide MatchInterval, MatchNumericDate, MatchMonthDay, MatchDayMonth, MatchLead;
    hide MatchIntervalAfter, MatchNumericDateAfter, MatchMonthDayAfter, MatchDayMonthAfter, NoDateSeparator;
    TablesAreWords();
    LetterInitial(m.month, Months);
    var v := m.month + rest;
    NoSeparator(v);
    var t := m.Tail() + rest;
    assert t == m.day + m.gap + v;
    assert t[0] == m.day[0];
    JoinLead(m.lead.Matched(), m.Tail(), rest, t);
    EveryLead(m.lead, t);
    UnitsAreNotMonths();
    MatchWordMiss(Units, m.month, rest);
    IntervalAfterMissCounted(m.lead, m.day, m.gap, v);
    NumericDateAfterMiss(m.lead, m.day, m.gap, v);
    MonthDayAfterMissDigit(m.lead, t);
    MatchDayMonthAfterExact(m, rest);
  }

  /** A day-first phrase becomes FREQ=YEARLY;BYMONTH=<month number>;BYMONTHDAY=<day>. */
  lemma ParseDayMonthPhrase(m: DayMonthMatch, rest: string)
    requires m.Valid()
    ensures Lower(m.month) in MonthNumber
    ensures ParseRecurrence(m.Matched() + rest) == Render(NamedMonthRule(m.month, m.day))
  {
    hide ParseRecurrence, MatchInterval, MatchNumericDate, MatchNamedMonth, MatchMonthDay, MatchDayMonth, MatchNthWeekday, MatchDayOfMonth;
    DayMonthFirst(m, rest);
    ParseWhenNamedMonth(m.Matched() + rest, m.month, m.day);
    var number := DecimalString(MonthNumber[Lower(m.month)]);
    DigitsNoLower(number);
    DigitsNoLower(m.day);
    YearlyText(number, m.day);
  }

  /** The translator's choice when the nth-weekday pattern is the first to match. */
  lemma ParseWhenNthWeekday(s: string, m: NthWeekdayMatch, rest: string)
    requires s != [] && MatchInterval(s) == None && MatchNumericDate(s) == None
    requires MatchMonthDay(s) == None && MatchDayMonth(s) == None
    requires MatchNthWeekday(s) == Some((m, rest))
    ensures ParseRecurrence(s) == Upper("FREQ=MONTHLY;INTERVAL=1;BYDAY=" + [m.ordinal] + m.weekday)
  {
  }

  /** The translator's choice when the day-of-month pattern is the first to match. */
  lemma ParseWhenDayOfMonth(s: string, m: DayOfMonthMatch, rest: string)
    requires s != [] && MatchInterval(s) == None && MatchNumericDate(s) == None
    requires MatchMonthDay(s) == None && MatchDayMonth(s) == None && MatchNthWeekday(s) == None
    requires MatchDayOfMonth(s) == Some((m, rest))
    ensures ParseRecurrence(s) == Upper("FREQ=MONTHLY;INTERVAL=1;BYMONTHDAY=" + m.day)
  {
  }

  /**
   * An ordinal day with its suffix and no blank after it ("3rd") is not an
   * nth-weekday phrase: `\s+` finds no blank, and without the suffix a letter
   * stands where the blank should be.
   */
  lemma OrdinalDayNotWeekday(lead: Lead, ordinal: char, suffix: string, rest: string)
    requires '1' <= ordinal <= '5' && Lower(suffix) in OrdinalSuffixes
    requires rest == [] || !IsSpace(rest[0])
    ensures MatchNthWeekdayAfter(lead, [ordinal] + suffix + rest) == None
  {
    hide TakeRun, MatchWord;
    TablesArePrefixFree();
    var t := [ordinal] + suffix + rest;
    assert t[1..] == suffix + rest;
    MatchWordExact(OrdinalSuffixes, suffix, rest);
    assert [] + rest == rest;
    TakeRunExact(Space, [], rest);
  }

  /** Past the lead of an nth-weekday phrase, the patterns tried before it fail. */
  lemma NthWeekdayOthersMiss(m: NthWeekdayMatch, rest: string)
    requires m.Shaped()
    requires m.suffix != [] || MatchWord(Units, m.weekday + rest) == None
    ensures var t := m.Tail() + rest;
            && MatchIntervalAfter(m.lead, t) == None && MatchNumericDateAfter(m.lead, t) == None
            && MatchMonthDayAfter(m.lead, t) == None && MatchDayMonthAfter(m.lead, t) == None
  {
    hide MatchIntervalAfter, MatchNumericDateAfter, MatchMonthDayAfter, MatchDayMonthAfter, MatchNthWeekdayAfter;
    var t := m.Tail() + rest;
    assert t[0] == m.ordinal;
    MonthDayAfterMissDigit(m.lead, t);
    if m.suffix == [] {
      NthWeekdayBareMiss(m, rest);
    } else {
      NthWeekdaySuffixedMiss(m, rest);
    }
  }

  lemma NthWeekdayBareMiss(m: NthWeekdayMatch, rest: string)
    requires m.Shaped() && m.suffix == []
    requires MatchWord(Units, m.weekday + rest) == None
    ensures var t := m.Tail() + rest;
            && MatchIntervalAfter(m.lead, t) == None && MatchNumericDateAfter(m.lead, t) == None
            && MatchDayMonthAfter(m.lead, t) == None
  {
    hide MatchIntervalAfter, MatchNumericDateAfter, MatchMonthDayAfter, MatchDayMonthAfter, MatchNthWeekdayAfter;
    TablesAreWords();
    LetterInitial(m.weekday, Weekdays);
    var v := m.weekday + rest;
    assert m.Tail() + rest == [m.ordinal] + m.gap + v;
    IntervalAfterMissCounted(m.lead, [m.ordinal], m.gap, v);
    NumericDateAfterMiss(m.lead, [m.ordinal], m.gap, v);
    MonthsAreNotWeekdays();
    MatchWordMiss(Months, m.weekday, rest);
    DayMonthAfterMiss(m.lead, [m.ordinal], m.gap, v);
  }

  lemma NthWeekdaySuffixedMiss(m: NthWeekdayMatch, rest: string)
    requires m.Shaped() && m.suffix != []
    ensures var t := m.Tail() + rest;
            && MatchIntervalAfter(m.lead, t) == None && MatchNumericDateAfter(m.lead, t) == None
            && MatchDayMonthAfter(m.lead, t) == None
  {
    hide MatchIntervalAfter, MatchNumericDateAfter, MatchMonthDayAfter, MatchDayMonthAfter, MatchNthWeekdayAfter;
    TablesAreWords();
    var w := m.suffix + m.gap + m.weekday + rest;
    assert m.Tail() + rest == [m.ordinal] + [] + w == [m.ordinal] + w;
    LetterInitial(m.suffix, OrdinalSuffixes);
    IntervalAfterMissUnspaced(m.lead, [m.ordinal], w);
    NumericDateAfterMiss(m.lead, [m.ordinal], [], w);
    DayMonthAfterMiss(m.lead, [m.ordinal], [], w);
  }

  /**
   * On an nth-weekday phrase the patterns tried before it fail, unless the
   * ordinal stands bare in front of a weekday that also starts a unit word
   * ("every 2 weeks" is an interval phrase).
   */
  lemma NthWeekdayFirst(m: NthWeekdayMatch, rest: string)
    requires m.Valid()
    requires m.suffix != [] || MatchWord(Units, m.weekday + rest) == None
    ensures var s := m.Matched() + rest;
            && s != [] && MatchInterval(s) == None && MatchNumericDate(s) == None
            && MatchMonthDay(s) == None && MatchDayMonth(s) == None
            && MatchNthWeekday(s) == Some((m, rest))
  {
    hide MatchInterval, MatchNumericDate, MatchMonthDay, MatchDayMonth, MatchNthWeekday, MatchDayOfMonth, MatchLead;
    hide MatchIntervalAfter, MatchNumericDateAfter, MatchMonthDayAfter, MatchDayMonthAfter, MatchNthWeekdayAfter, MatchDayOfMonthAfter;
    var t := m.Tail() + rest;
    JoinLead(m.lead.Matched(), m.Tail(), rest, t);
    assert t[0] == m.ordinal;
    EveryLead(m.lead, t);
    NthWeekdayOthersMiss(m, rest);
    MatchNthWeekdayAfterExact(m, rest);
  }

  /** An nth-weekday phrase becomes FREQ=MONTHLY;INTERVAL=1;BYDAY=<n><two-letter day>. */
  lemma ParseNthWeekdayPhrase(m: NthWeekdayMatch, rest: string)
    requires m.Valid()
    requires m.suffix != [] || MatchWord(Units, m.weekday + rest) == None
    ensures ParseRecurrence(m.Matched() + rest) == Render(NthWeekdayRule(m))
  {
    hide ParseRecurrence, MatchInterval, MatchNumericDate, MatchNamedMonth, MatchMonthDay, MatchDayMonth, MatchNthWeekday, MatchDayOfMonth;
    NthWeekdayFirst(m, rest);
    ParseWhenNthWeekday(m.Matched() + rest, m, rest);
    MonthlyByDayText(m.ordinal, m.weekday);
  }

  /**
   * Past the lead of a day-of-month phrase, the patterns tried before it fail
   * when the digits are followed by a blank run `gap` and a remainder `v` that
   * carries neither a separator nor, after a non-empty gap, a unit or a month.
   * The nth-weekday pattern fails outright unless the day is one digit 1-5.
   */
  lemma DayOfMonthOthersMiss(m: DayOfMonthMatch, gap: string, v: string)
    requires m.Shaped()
    requires All(Space, gap) && (v == [] || !IsSpace(v[0]))
    requires gap == [] ==> v == [] || !IsDigit(v[0])
    requires NoDateSeparator(v)
    requires gap != [] ==> MatchWord(Units, v) == None && MatchWord(Months, v) == None
    ensures var t := m.Tail() + gap + v;
            && MatchIntervalAfter(m.lead, t) == None && MatchNumericDateAfter(m.lead, t) == None
            && MatchMonthDayAfter(m.lead, t) == None && MatchDayMonthAfter(m.lead, t) == None
            && ((|m.day| == 1 && '1' <= m.day[0] <= '5') || MatchNthWeekdayAfter(m.lead, t) == None)
  {
    hide NoDateSeparator, TakeRun, MatchWord;
    hide MatchIntervalAfter, MatchNumericDateAfter, MatchMonthDayAfter, MatchDayMonthAfter, MatchNthWeekdayAfter;
    TablesAreWords();
    var t := m.Tail() + gap + v;
    assert t == m.day + gap + v;
    if gap == [] {
      assert t == m.day + v;
      IntervalAfterMissUnspaced(m.lead, m.day, v);
    } else {
      IntervalAfterMissCounted(m.lead, m.day, gap, v);
    }
    NumericDateAfterMiss(m.lead, m.day, gap, v);
    MonthDayAfterMissDigit(m.lead, t);
    DayMonthAfterMiss(m.lead, m.day, gap, v);
    if |m.day| >= 2 {
      assert t[1] == m.day[1];
    }
    if !(|m.day| == 1 && '1' <= m.day[0] <= '5') {
      NthWeekdayAfterMiss(m.lead, t);
    }
  }

  /**
   * On a day-of-month phrase whose digits are followed by a blank run and a
   * remainder that neither continues the number, nor holds a separator, nor
   * (after blanks) starts with a unit or a month name, every pattern tried
   * before `every <digits>` fails; a one-digit day 1-5 must also miss the
   * nth-weekday pattern ("every 3rd", "every 2nd Mon").
   */
  lemma DayOfMonthFirst(m: DayOfMonthMatch, gap: string, v: string)
    requires m.Valid()
    requires All(Space, gap) && (v == [] || !IsSpace(v[0]))
    requires gap == [] ==> v == [] || !IsDigit(v[0])
    requires NoDateSeparator(v)
    requires gap != [] ==> MatchWord(Units, v) == None && MatchWord(Months, v) == None
    requires |m.day| == 1 && '1' <= m.day[0] <= '5' ==> MatchNthWeekday(m.Matched() + gap + v) == None
    ensures var s := m.Matched() + gap + v;
            && s != [] && MatchInterval(s) == None && MatchNumericDate(s) == None
            && MatchMonthDay(s) == None && MatchDayMonth(s) == None && MatchNthWeekday(s) == None
            && MatchDayOfMonth(s) == Some((m, gap + v))
  {
    hide MatchInterval, MatchNumericDate, MatchMonthDay, MatchDayMonth, MatchNthWeekday, MatchDayOfMonth, MatchLead;
    hide MatchIntervalAfter, MatchNumericDateAfter, MatchMonthDayAfter, MatchDayMonthAfter, MatchNthWeekdayAfter, MatchDayOfMonthAfter;
    var rest := gap + v;
    var t := m.Tail() + rest;
    DayOfMonthText(m, gap, v);
    assert m.Matched() + gap + v == m.Matched() + rest;
    EveryLead(m.lead, t);
    DayOfMonthOthersMiss(m, gap, v);
    MatchDayOfMonthExact(m, rest);
  }

  /** How a day-of-month phrase followed by a blank run and a remainder splits at the lead. */
  lemma DayOfMonthText(m: DayOfMonthMatch, gap: string, v: string)
    requires m.Shaped()
    requires All(Space, gap)
    requires gap == [] ==> v == [] || !IsDigit(v[0])
    ensures var t := m.Tail() + (gap + v);
            && m.Matched() + gap + v == m.lead.Matched() + t == m.Matched() + (gap + v)
            && t == m.Tail() + gap + v
            && t[0] == m.day[0] && (t == [] || !IsSpace(t[0]))
            && (gap + v == [] || !IsDigit((gap + v)[0]))
  {
    var rest := gap + v;
    if gap != [] {
      assert rest[0] == gap[0];
    }
    var t := m.Tail() + rest;
    JoinLead(m.lead.Matched(), m.Tail(), rest, t);
  }

  /**
   * A day-of-month phrase becomes FREQ=MONTHLY;INTERVAL=1;BYMONTHDAY=<number>,
   * whatever follows it once the earlier patterns have failed: "every 15",
   * "every 15th", "every 15 at 9am".
   */
  lemma ParseDayOfMonthPhrase(m: DayOfMonthMatch, gap: string, v: string)
    requires m.Valid()
    requires All(Space, gap) && (v == [] || !IsSpace(v[0]))
    requires gap == [] ==> v == [] || !IsDigit(v[0])
    requires NoDateSeparator(v)
    requires gap != [] ==> MatchWord(Units, v) == None && MatchWord(Months, v) == None
    requires |m.day| == 1 && '1' <= m.day[0] <= '5' ==> MatchNthWeekday(m.Matched() + gap + v) == None
    ensures ParseRecurrence(m.Matched() + gap + v) == Render(DayOfMonthRule(m))
  {
    hide ParseRecurrence, MatchInterval, MatchNumericDate, MatchNamedMonth, MatchMonthDay, MatchDayMonth, MatchNthWeekday, MatchDayOfMonth;
    DayOfMonthFirst(m, gap, v);
    ParseWhenDayOfMonth(m.Matched() + gap + v, m, gap + v);
    DigitsNoLower(m.day);
    MonthlyDayText(m.day);
  }

  /** The rule text of every matched phrase is non-empty: upper-casing keeps the length. */
  lemma UpperNonEmpty(x: string)
    requires x != []
    ensures Upper(x) != []
  {
  }

  /**
   * The translator yields the empty string exactly when the phrase is empty
   * or none of the six patterns matches at its front; it never fails.
   */
  lemma ParseEmptyWhenUnmatched(s: string)
    ensures ParseRecurrence(s) == [] <==>
              (s == [] || (MatchInterval(s).None? && MatchNumericDate(s).None? && MatchMonthDay(s).None?
                           && MatchDayMonth(s).None? && MatchNthWeekday(s).None? && MatchDayOfMonth(s).None?))
  {
    if s != [] {
      if MatchInterval(s).Some? {
        var m := MatchInterval(s).value.0;
        var f := Upper(m.unit);
        var freq := if f == "DAY" then "DAI" else f;
        var interval := match m.count case None => "1" case Some(c) => c.digits;
        UpperNonEmpty("FREQ=" + freq + "LY;INTERVAL=" + interval);
      } else if MatchNumericDate(s).Some? {
        var m := MatchNumericDate(s).value.0;
        UpperNonEmpty("FREQ=YEARLY;BYMONTH=" + m.month + ";BYMONTHDAY=" + m.day);
      } else if MatchNamedMonth(s).Some? {
        var (month, day) := MatchNamedMonth(s).value;
        MonthTableMatchesPattern();
        UpperNonEmpty("FREQ=YEARLY;BYMONTH=" + DecimalString(MonthNumber[Lower(month)]) + ";BYMONTHDAY=" + day);
      } else if MatchNthWeekday(s).Some? {
        var m := MatchNthWeekday(s).value.0;
        UpperNonEmpty("FREQ=MONTHLY;INTERVAL=1;BYDAY=" + [m.ordinal] + m.weekday);
      } else if MatchDayOfMonth(s).Some? {
        var m := MatchDayOfMonth(s).value.0;
        UpperNonEmpty("FREQ=MONTHLY;INTERVAL=1;BYMONTHDAY=" + m.day);
      }
    }
  }

  /** A named-month date gives the same rule whether the month or the day is written first. */
  lemma NamedMonthOrderIrrelevant(a: MonthDayMatch, ra: string, b: DayMonthMatch, rb: string)
    requires a.Valid() && b.Valid()
    requires ra == [] || !IsDigit(ra[0])
    requires Lower(a.month) == Lower(b.month) && a.day == b.day
    ensures ParseRecurrence(a.Matched() + ra) == ParseRecurrence(b.Matched() + rb)
  {
    ParseMonthDayPhrase(a, ra);
    ParseDayMonthPhrase(b, rb);
  }

  /** The lead fails when the first word after the blanks is none of the tags. */
  lemma LeadMiss(tags: seq<string>, indent: string, t: string)
    requires All(Space, indent)
    requires t == [] || !IsSpace(t[0])
    requires MatchWord(tags, t) == None
    ensures MatchLead(tags, indent + t) == None
  {
    TakeRunExact(Space, indent, t);
  }

  /** A phrase whose first word is neither `after` nor `every` gives the empty rule. */
  lemma ParseWithoutKeyword(indent: string, t: string)
    requires All(Space, indent)
    requires t == [] || !IsSpace(t[0])
    requires MatchWord(IntervalTags, t) == None && MatchWord(EveryTag, t) == None
    ensures ParseRecurrence(indent + t) == ""
  {
    LeadMiss(IntervalTags, indent, t);
    LeadMiss(EveryTag, indent, t);
    ParseEmptyWhenUnmatched(indent + t);
  }
}
