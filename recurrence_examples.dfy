/**
 * Phrases worked through the translator: the precedence the pattern order
 * gives, digits copied as written, and phrases that match no pattern. Each
 * phrase may be indented and followed by any text, as `re.match` allows.
 */
module RecurrenceExamples {
  import opened Wrappers
  import opened Text
  import opened Lexicon
  import opened Recurrence
  import opened RecurrenceLemmas

  /** The `every` lead with one blank. */
  function Every(indent: string): Lead {
    Lead(indent, "every", " ")
  }

  lemma EveryValid(indent: string)
    requires All(Space, indent)
    ensures Every(indent).Valid(IntervalTags) && Every(indent).Valid(EveryTag)
  {
    assert Lower("every") == "every";
    assert IsSpace(' ');
  }

  lemma RenderWeeklyTwo()
    ensures Render(Rule(Weekly, Some("2"), None, None, None)) == "FREQ=WEEKLY;INTERVAL=2"
  {
    IntervalRendering(Weekly, "2");
  }

  /** "every 2 weeks" is an interval phrase, although the nth-weekday pattern also matches it. */
  lemma EveryTwoWeeks(indent: string, rest: string)
    requires All(Space, indent)
    ensures ParseRecurrence(indent + "every 2 week" + rest) == "FREQ=WEEKLY;INTERVAL=2"
  {
    var m := IntervalMatch(Every(indent), Some(Count("2", " ")), "week");
    EveryValid(indent);
    assert Lower("week") == "week";
    assert m.Matched() == indent + "every 2 week";
    assert IntervalRule(m) == Rule(Weekly, Some("2"), None, None, None);
    ParseIntervalPhrase(m, rest);
    RenderWeeklyTwo();
  }

  lemma EveryTwoWeeksIsAlsoNthWeekday(indent: string, rest: string)
    requires All(Space, indent)
    ensures MatchNthWeekday(indent + "every 2 we" + rest) == Some((NthWeekdayMatch(Every(indent), '2', "", " ", "we"), rest))
  {
    var n := NthWeekdayMatch(Every(indent), '2', "", " ", "we");
    EveryValid(indent);
    assert Lower("we") == "we";
    assert n.Matched() == indent + "every 2 we";
    MatchNthWeekdayExact(n, rest);
  }

  lemma RenderDailyOne()
    ensures Render(Rule(Daily, Some("1"), None, None, None)) == "FREQ=DAILY;INTERVAL=1"
  {
    IntervalRendering(Daily, "1");
  }

  lemma RenderWeeklyOne()
    ensures Render(Rule(Weekly, Some("1"), None, None, None)) == "FREQ=WEEKLY;INTERVAL=1"
  {
    IntervalRendering(Weekly, "1");
  }

  lemma RenderDailyThree()
    ensures Render(Rule(Daily, Some("03"), None, None, None)) == "FREQ=DAILY;INTERVAL=03"
  {
    IntervalRendering(Daily, "03");
  }

  /** "every day at 9am": the unit is read and the rest of the phrase is ignored. */
  lemma EveryDay(indent: string, rest: string)
    requires All(Space, indent)
    ensures ParseRecurrence(indent + "every day" + rest) == "FREQ=DAILY;INTERVAL=1"
  {
    var m := IntervalMatch(Every(indent), None, "day");
    EveryValid(indent);
    assert Lower("day") == "day";
    assert m.Matched() == indent + "every day";
    assert IntervalRule(m) == Rule(Daily, Some("1"), None, None, None);
    ParseIntervalPhrase(m, rest);
    RenderDailyOne();
  }

  /** "every weekday" is read as "every week" followed by "day". */
  lemma EveryWeekday(indent: string, rest: string)
    requires All(Space, indent)
    ensures ParseRecurrence(indent + "every weekday" + rest) == "FREQ=WEEKLY;INTERVAL=1"
  {
    var m := IntervalMatch(Every(indent), None, "week");
    EveryValid(indent);
    assert Lower("week") == "week";
    assert m.Matched() + ("day" + rest) == indent + "every weekday" + rest;
    assert IntervalRule(m) == Rule(Weekly, Some("1"), None, None, None);
    ParseIntervalPhrase(m, "day" + rest);
    RenderWeeklyOne();
  }

  /** "after 03 days": the count is copied as written, leading zero included. */
  lemma AfterThreeDays(indent: string, rest: string)
    requires All(Space, indent)
    ensures ParseRecurrence(indent + "after 03 days" + rest) == "FREQ=DAILY;INTERVAL=03"
  {
    var lead := Lead(indent, "after", " ");
    var m := IntervalMatch(lead, Some(Count("03", " ")), "day");
    assert Lower("after") == "after" && IsSpace(' ');
    assert Lower("day") == "day";
    assert m.Matched() + ("s" + rest) == indent + "after 03 days" + rest;
    assert IntervalRule(m) == Rule(Daily, Some("03"), None, None, None);
    ParseIntervalPhrase(m, "s" + rest);
    RenderDailyThree();
  }

  lemma RenderThirteenFortyFive()
    ensures Render(Rule(Yearly, None, None, Some("13"), Some("45"))) == "FREQ=YEARLY;BYMONTH=13;BYMONTHDAY=45"
  {
    assert NoLower("13") && NoLower("45");
    YearlyText("13", "45");
  }

  /** "every 13/45": month and day are copied without a range check. */
  lemma EveryThirteenFortyFive(indent: string, rest: string)
    requires All(Space, indent)
    requires rest == [] || !IsDigit(rest[0])
    ensures ParseRecurrence(indent + "every 13/45" + rest) == "FREQ=YEARLY;BYMONTH=13;BYMONTHDAY=45"
  {
    var m := NumericDateMatch(Every(indent), "13", "", '/', "", "45");
    EveryValid(indent);
    assert m.Matched() == indent + "every 13/45";
    assert NumericDateRule(m) == Rule(Yearly, None, None, Some("13"), Some("45"));
    ParseNumericDatePhrase(m, rest);
    RenderThirteenFortyFive();
  }

  lemma RenderAprilFifteen()
    ensures Render(Rule(Yearly, None, None, Some("4"), Some("15"))) == "FREQ=YEARLY;BYMONTH=4;BYMONTHDAY=15"
  {
    assert NoLower("4") && NoLower("15");
    YearlyText("4", "15");
  }

  lemma AprilRule()
    ensures Lower("Apr") in MonthNumber
    ensures NamedMonthRule("Apr", "15") == Rule(Yearly, None, None, Some("4"), Some("15"))
  {
    assert Lower("Apr") == "apr";
    assert DecimalString(4) == "4";
  }

  /** "every Apr 15": the month name is looked up and its number written out. */
  lemma EveryAprilFifteen(indent: string, rest: string)
    requires All(Space, indent)
    requires rest == [] || !IsDigit(rest[0])
    ensures ParseRecurrence(indent + "every Apr 15" + rest) == "FREQ=YEARLY;BYMONTH=4;BYMONTHDAY=15"
  {
    var m := MonthDayMatch(Every(indent), "Apr", "", " ", "15");
    EveryValid(indent);
    assert Lower("Apr") == "apr";
    assert m.Matched() == indent + "every Apr 15";
    ParseMonthDayPhrase(m, rest);
    AprilRule();
    RenderAprilFifteen();
  }

  /** "every 15 Apr" gives the same rule as "every Apr 15". */
  lemma EveryFifteenApril(indent: string, rest: string)
    requires All(Space, indent)
    ensures ParseRecurrence(indent + "every 15 Apr" + rest) == "FREQ=YEARLY;BYMONTH=4;BYMONTHDAY=15"
  {
    var m := DayMonthMatch(Every(indent), "15", " ", "Apr");
    EveryValid(indent);
    assert Lower("Apr") == "apr";
    assert m.Matched() == indent + "every 15 Apr";
    ParseDayMonthPhrase(m, rest);
    AprilRule();
    RenderAprilFifteen();
  }

  lemma RenderSecondMonday()
    ensures Render(Rule(Monthly, Some("1"), Some("2MO"), None, None)) == "FREQ=MONTHLY;INTERVAL=1;BYDAY=2MO"
  {
    MonthlyByDayRendering("2MO");
  }

  /** "every 2nd Mon": the weekday is its first two letters, upper-cased. */
  lemma EverySecondMonday(indent: string, rest: string)
    requires All(Space, indent)
    ensures ParseRecurrence(indent + "every 2nd Mon" + rest) == "FREQ=MONTHLY;INTERVAL=1;BYDAY=2MO"
  {
    var m := NthWeekdayMatch(Every(indent), '2', "nd", " ", "Mo");
    EveryValid(indent);
    assert Lower("nd") == "nd" && Lower("Mo") == "mo";
    assert m.Matched() + ("n" + rest) == indent + "every 2nd Mon" + rest;
    assert Upper("Mo") == "MO";
    assert ['2'] + Upper("Mo") == "2MO";
    assert NthWeekdayRule(m) == Rule(Monthly, Some("1"), Some("2MO"), None, None);
    ParseNthWeekdayPhrase(m, "n" + rest);
    RenderSecondMonday();
  }

  lemma RenderFifteenth()
    ensures Render(Rule(Monthly, Some("1"), None, None, Some("15"))) == "FREQ=MONTHLY;INTERVAL=1;BYMONTHDAY=15"
  {
    MonthlyDayRendering("15");
  }

  /** "every 15" has no unit, so it falls through to the day-of-month pattern, whatever word follows the digits. */
  lemma EveryFifteen(indent: string, rest: string)
    requires All(Space, indent)
    requires rest == [] || (!IsDigit(rest[0]) && !IsSpace(rest[0]))
    requires NoDateSeparator(rest)
    ensures ParseRecurrence(indent + "every 15" + rest) == "FREQ=MONTHLY;INTERVAL=1;BYMONTHDAY=15"
  {
    var m := DayOfMonthMatch(Every(indent), "15");
    EveryValid(indent);
    assert m.Matched() == indent + "every 15";
    assert m.Matched() + [] + rest == m.Matched() + rest;
    assert DayOfMonthRule(m) == Rule(Monthly, Some("1"), None, None, Some("15"));
    ParseDayOfMonthPhrase(m, [], rest);
    RenderFifteenth();
  }

  /** "every 15th": the ordinal suffix is left over, and the day is still 15. */
  lemma EveryFifteenth(indent: string, rest: string)
    requires All(Space, indent)
    ensures ParseRecurrence(indent + "every 15" + ("th" + rest)) == "FREQ=MONTHLY;INTERVAL=1;BYMONTHDAY=15"
  {
    EveryFifteen(indent, "th" + rest);
  }

  lemma RenderThird()
    ensures Render(Rule(Monthly, Some("1"), None, None, Some("3"))) == "FREQ=MONTHLY;INTERVAL=1;BYMONTHDAY=3"
  {
    MonthlyDayRendering("3");
  }

  /** "3rd" with no blank after it is no nth-weekday phrase. */
  lemma ThirdNotWeekday(indent: string, rest: string)
    requires All(Space, indent)
    requires rest == [] || !IsSpace(rest[0])
    ensures MatchNthWeekday(indent + "every 3" + ("rd" + rest)) == None
  {
    hide MatchInterval, MatchNumericDate, MatchMonthDay, MatchDayMonth, MatchNthWeekday, MatchDayOfMonth, MatchLead;
    hide MatchIntervalAfter, MatchNumericDateAfter, MatchMonthDayAfter, MatchDayMonthAfter, MatchNthWeekdayAfter, MatchDayOfMonthAfter;
    hide TakeRun, MatchWord;
    EveryValid(indent);
    var t := "3" + ("rd" + rest);
    assert indent + "every 3" + ("rd" + rest) == Every(indent).Matched() + t;
    EveryLead(Every(indent), t);
    assert Lower("rd") == "rd";
    assert t == ['3'] + "rd" + rest;
    OrdinalDayNotWeekday(Every(indent), '3', "rd", rest);
  }

  /** "every 3rd": one digit 1-5 with its suffix and no weekday after it keeps the day-of-month rule. */
  lemma EveryThird(indent: string, rest: string)
    requires All(Space, indent)
    requires rest == [] || !IsSpace(rest[0])
    ensures ParseRecurrence(indent + "every 3" + ("rd" + rest)) == "FREQ=MONTHLY;INTERVAL=1;BYMONTHDAY=3"
  {
    hide ParseRecurrence, MatchNthWeekday, NoDateSeparator, TakeRun, MatchWord;
    NoSeparator("rd" + rest);
    var m := DayOfMonthMatch(Every(indent), "3");
    EveryValid(indent);
    assert m.Matched() == indent + "every 3";
    assert m.Matched() + [] + ("rd" + rest) == indent + "every 3" + ("rd" + rest);
    ThirdNotWeekday(indent, rest);
    assert DayOfMonthRule(m) == Rule(Monthly, Some("1"), None, None, Some("3"));
    ParseDayOfMonthPhrase(m, [], "rd" + rest);
    RenderThird();
  }

  /** "every 15-ish": a dash with no day after it is no MM-DD date, and the day is still 15. */
  lemma EveryFifteenIsh(indent: string, rest: string)
    requires All(Space, indent)
    ensures ParseRecurrence(indent + "every 15" + ("-ish" + rest)) == "FREQ=MONTHLY;INTERVAL=1;BYMONTHDAY=15"
  {
    var v := "-ish" + rest;
    assert v[1..] == [] + ("ish" + rest);
    TakeRunExact(Space, [], "ish" + rest);
    EveryFifteen(indent, v);
  }

  /** "at" starts neither a unit nor a month name: "apr" and "aug" part from it at the second letter. */
  lemma AtNoUnitNoMonth(rest: string)
    ensures MatchWord(Units, "at" + rest) == None && MatchWord(Months, "at" + rest) == None
  {
    assert Lower("at") == "at";
    forall w | w in Units
      ensures !IsPrefix(w, "at") && !IsPrefix("at", w)
    {
      DifferAt(w, "at", 0);
    }
    MatchWordMiss(Units, "at", rest);
    forall w | w in Months
      ensures !IsPrefix(w, "at") && !IsPrefix("at", w)
    {
      if w == "apr" || w == "aug" {
        DifferAt(w, "at", 1);
      } else {
        DifferAt(w, "at", 0);
      }
    }
    MatchWordMiss(Months, "at", rest);
  }

  /** "every 15 at 9am": a word that is neither a unit nor a month after the blank leaves the day-of-month rule. */
  lemma EveryFifteenAt(indent: string, rest: string)
    requires All(Space, indent)
    ensures ParseRecurrence(indent + "every 15" + " " + ("at" + rest)) == "FREQ=MONTHLY;INTERVAL=1;BYMONTHDAY=15"
  {
    var m := DayOfMonthMatch(Every(indent), "15");
    EveryValid(indent);
    assert m.Matched() == indent + "every 15";
    assert All(Space, " ") by { assert IsSpace(' '); }
    AtNoUnitNoMonth(rest);
    assert DayOfMonthRule(m) == Rule(Monthly, Some("1"), None, None, Some("15"));
    ParseDayOfMonthPhrase(m, " ", "at" + rest);
    RenderFifteenth();
  }

  /** "call mom" has no recurrence keyword: the rule is empty. */
  lemma CallMom(indent: string, rest: string)
    requires All(Space, indent)
    ensures ParseRecurrence(indent + ("call mom" + rest)) == ""
  {
    var t := "call mom" + rest;
    assert t[..1] == "c" && Lower("c") == "c";
    DifferAt("c", "after", 0);
    DifferAt("c", "every", 0);
    assert t == "c" + ("all mom" + rest);
    MatchWordMiss(IntervalTags, "c", "all mom" + rest);
    MatchWordMiss(EveryTag, "c", "all mom" + rest);
    ParseWithoutKeyword(indent, t);
  }

  /** "after 15" has no unit, and the day-of-month pattern needs `every`: the rule is empty. */
  lemma AfterFifteen(indent: string, rest: string)
    requires All(Space, indent)
    requires rest == [] || (!IsDigit(rest[0]) && !IsSpace(rest[0]))
    ensures ParseRecurrence(indent + ("after 15" + rest)) == ""
  {
    AfterFifteenNotInterval(indent, rest);
    AfterIsNotEvery(indent, " 15" + rest);
    assert "after" + (" 15" + rest) == "after 15" + rest;
    ParseEmptyWhenUnmatched(indent + ("after 15" + rest));
  }

  lemma AfterFifteenNotInterval(indent: string, rest: string)
    requires All(Space, indent)
    requires rest == [] || (!IsDigit(rest[0]) && !IsSpace(rest[0]))
    ensures MatchInterval(indent + ("after 15" + rest)) == None
  {
    hide MatchInterval, MatchIntervalAfter, MatchLead;
    var lead := Lead(indent, "after", " ");
    assert lead.Valid(IntervalTags) by {
      assert Lower("after") == "after" && IsSpace(' ');
    }
    assert indent + ("after 15" + rest) == lead.Matched() + ("15" + rest);
    IntervalLead(lead, "15" + rest);
    IntervalAfterMissUnspaced(lead, "15", rest);
  }

  /** A phrase led by `after` matches none of the `every` patterns. */
  lemma AfterIsNotEvery(indent: string, u: string)
    requires All(Space, indent)
    ensures MatchLead(EveryTag, indent + ("after" + u)) == None
  {
    var t := "after" + u;
    assert t == "a" + ("fter" + u);
    assert Lower("a") == "a";
    DifferAt("a", "every", 0);
    MatchWordMiss(EveryTag, "a", "fter" + u);
    LeadMiss(EveryTag, indent, t);
  }

  /** No unit word starts "sunday": they all differ from it in the first letter. */
  lemma SundayNoUnit(rest: string)
    ensures MatchWord(Units, "sunday" + rest) == None
  {
    assert "sunday" + rest == "s" + ("unday" + rest);
    assert Lower("s") == "s";
    forall w | w in Units
      ensures !IsPrefix(w, "s") && !IsPrefix("s", w)
    {
      DifferAt(w, "s", 0);
    }
    MatchWordMiss(Units, "s", "unday" + rest);
  }

  /** No month name starts "sunday": "sep" parts from it at the second letter, the others at the first. */
  lemma SundayNoMonth(rest: string)
    ensures MatchWord(Months, "sunday" + rest) == None
  {
    assert "sunday" + rest == "su" + ("nday" + rest);
    assert Lower("su") == "su";
    forall w | w in Months
      ensures !IsPrefix(w, "su") && !IsPrefix("su", w)
    {
      if w == "sep" {
        DifferAt(w, "su", 1);
      } else {
        DifferAt(w, "su", 0);
      }
    }
    MatchWordMiss(Months, "su", "nday" + rest);
  }

  /** Past `every`, "sunday" starts neither a unit, nor a month, nor a number: the rule is empty. */
  lemma EverySundayMisses(lead: Lead, rest: string)
    ensures var t := "sunday" + rest;
            && MatchIntervalAfter(lead, t) == None && MatchNumericDateAfter(lead, t) == None
            && MatchMonthDayAfter(lead, t) == None && MatchDayMonthAfter(lead, t) == None
            && MatchNthWeekdayAfter(lead, t) == None && MatchDayOfMonthAfter(lead, t) == None
  {
    hide MatchWord, TakeRun;
    var t := "sunday" + rest;
    SundayNoUnit(rest);
    IntervalAfterMissWord(lead, t);
    assert t == [] + [] + t;
    NumericDateAfterMiss(lead, [], [], t);
    SundayNoMonth(rest);
    DayMonthAfterMiss(lead, [], [], t);
    NthWeekdayAfterMiss(lead, t);
    TakeRunExact(Digit, [], t);
  }

  lemma EverySunday(indent: string, rest: string)
    requires All(Space, indent)
    ensures ParseRecurrence(indent + "every " + ("sunday" + rest)) == ""
  {
    EveryValid(indent);
    assert Every(indent).Matched() == indent + "every ";
    EveryLead(Every(indent), "sunday" + rest);
    EverySundayMisses(Every(indent), rest);
    ParseEmptyWhenUnmatched(indent + "every " + ("sunday" + rest));
  }
}
