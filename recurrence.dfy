/**
 * The recurrence translator: a free-form Todoist phrase becomes a recurrence
 * rule string in the RECUR form of section 4.3.10 of RFC 2445 (FREQ,
 * INTERVAL, BYDAY, BYMONTH and BYMONTHDAY only), or the empty string.
 *
 * Each of the six regular expressions is a prefix recogniser. A matcher
 * returns the pieces the expression matched (its groups and the spans
 * between them) and the unmatched remainder, the way a Python match object
 * records where each group lies; the matcher's contract says that the
 * pieces are of the expression's shape and spell out the front of the input.
 * Every pattern starts with the lead `\s*(tag)\s+`, so each matcher reads the
 * lead and then the rest of its pattern.
 */
module Recurrence {
  import opened Wrappers
  import opened Text
  import opened Lexicon

  /** `\s*(tag)\s+`: the indentation, the keyword as written, and the blank run after it. */
  datatype Lead = Lead(indent: string, keyword: string, gap: string) {
    function Matched(): string {
      indent + keyword + gap
    }

    predicate Valid(tags: seq<string>) {
      All(Space, indent) && Lower(keyword) in tags && gap != [] && All(Space, gap)
    }
  }

  function MatchLead(tags: seq<string>, s: string): (r: Option<(Lead, string)>)
    ensures r.Some? ==> r.value.0.Valid(tags) && r.value.0.Matched() + r.value.1 == s
    ensures r.Some? ==> r.value.1 == [] || !IsSpace(r.value.1[0])
  {
    var (indent, u) := TakeRun(Space, s);
    match MatchWord(tags, u)
    case None => None
    case Some((keyword, v)) =>
      var (gap, t) := TakeRun(Space, v);
      if gap == [] then None
      else
        assert indent + keyword + gap + t == s by {
          assert indent + (keyword + (gap + t)) == s;
        }
        Some((Lead(indent, keyword, gap), t))
  }

  /** Text read past the lead, glued back behind it, gives the input. */
  lemma JoinLead(a: string, b: string, rest: string, t: string)
    requires b + rest == t
    ensures a + b + rest == a + t
  {
  }

  /** The optional `(?:(\d+)\s+)` of the interval pattern. */
  datatype Count = Count(digits: string, gap: string) {
    function Matched(): string {
      digits + gap
    }
  }

  /** A match of `\s*(after|every)\s+(?:(\d+)\s+)?(day|week|month|year)`. */
  datatype IntervalMatch = IntervalMatch(lead: Lead, count: Option<Count>, unit: string) {
    function Matched(): string {
      lead.Matched() + Tail()
    }

    /** The text past the lead. */
    function Tail(): string {
      (match count case None => "" case Some(c) => c.Matched()) + unit
    }

    predicate Valid() {
      lead.Valid(IntervalTags) && Shaped()
    }

    /** The part past the lead is of the pattern's shape. */
    predicate Shaped() {
      && (match count
          case None => true
          case Some(c) => c.digits != [] && All(Digit, c.digits) && c.gap != [] && All(Space, c.gap))
      && Lower(unit) in Units
    }
  }

  function MatchInterval(s: string): (r: Option<(IntervalMatch, string)>)
    ensures r.Some? ==> r.value.0.Valid() && r.value.0.Matched() + r.value.1 == s
  {
    match MatchLead(IntervalTags, s)
    case None => None
    case Some((lead, t)) =>
      var r := MatchIntervalAfter(lead, t);
      if r.Some? then JoinLead(lead.Matched(), r.value.0.Tail(), r.value.1, t); r else r
  }

  /** The interval pattern past its lead. */
  function MatchIntervalAfter(lead: Lead, t: string): (r: Option<(IntervalMatch, string)>)
    ensures r.Some? ==> r.value.0.lead == lead && r.value.0.Shaped()
    ensures r.Some? ==> r.value.0.Tail() + r.value.1 == t
  {
    var (digits, u) := TakeRun(Digit, t);
    if digits == [] then
      var r := MatchUnit(lead, None, t);
      if r.Some? then assert "" + r.value.0.unit == r.value.0.unit; r else r
    else
      var (gap, v) := TakeRun(Space, u);
      if gap == [] then None
      else
        var r := MatchUnit(lead, Some(Count(digits, gap)), v);
        if r.Some? then IntervalSpelling(r.value.0, r.value.1, t, u, v); r else r
  }

  /** `(day|week|month|year)` at the front of `v`, after the lead and the count read before it. */
  function MatchUnit(lead: Lead, count: Option<Count>, v: string): (r: Option<(IntervalMatch, string)>)
    ensures r.Some? ==> r.value.0 == IntervalMatch(lead, count, r.value.0.unit)
    ensures r.Some? ==> Lower(r.value.0.unit) in Units && r.value.0.unit + r.value.1 == v
  {
    match MatchWord(Units, v)
    case None => None
    case Some((unit, rest)) => Some((IntervalMatch(lead, count, unit), rest))
  }

  /** The count, its blanks and the unit, read one after the other, spell out the text. */
  lemma IntervalSpelling(m: IntervalMatch, rest: string, t: string, u: string, v: string)
    requires m.count.Some?
    requires t == m.count.value.digits + u && u == m.count.value.gap + v && v == m.unit + rest
    ensures m.Tail() + rest == t
  {
    CountUnitSpelling(m.count.value.digits, m.count.value.gap, m.unit, rest, u, v, t);
  }

  /** The count's digits, its blanks and the unit, read one after the other, spell out the text they were read from. */
  lemma CountUnitSpelling(digits: string, gap: string, unit: string, rest: string, u: string, v: string, t: string)
    requires t == digits + u && u == gap + v && v == unit + rest
    ensures (digits + gap) + unit + rest == t
  {
  }

  /** A match of `\s*every\s+(\d+)\s*[/-]\s*(\d+)`. */
  datatype NumericDateMatch =
    NumericDateMatch(lead: Lead, month: string, gap1: string, sep: char, gap2: string, day: string)
  {
    function Matched(): string {
      lead.Matched() + Tail()
    }

    function Tail(): string {
      month + gap1 + [sep] + gap2 + day
    }

    predicate Valid() {
      lead.Valid(EveryTag) && Shaped()
    }

    predicate Shaped() {
      && month != [] && All(Digit, month)
      && All(Space, gap1) && (sep == '/' || sep == '-') && All(Space, gap2)
      && day != [] && All(Digit, day)
    }
  }

  /** The final `(\d+)` is greedy, so the remainder never starts with a digit. */
  function MatchNumericDate(s: string): (r: Option<(NumericDateMatch, string)>)
    ensures r.Some? ==> r.value.0.Valid() && r.value.0.Matched() + r.value.1 == s
    ensures r.Some? ==> r.value.1 == [] || !IsDigit(r.value.1[0])
  {
    match MatchLead(EveryTag, s)
    case None => None
    case Some((lead, t)) =>
      var r := MatchNumericDateAfter(lead, t);
      if r.Some? then JoinLead(lead.Matched(), r.value.0.Tail(), r.value.1, t); r else r
  }

  function MatchNumericDateAfter(lead: Lead, t: string): (r: Option<(NumericDateMatch, string)>)
    ensures r.Some? ==> r.value.0.lead == lead && r.value.0.Shaped()
    ensures r.Some? ==> r.value.0.Tail() + r.value.1 == t
    ensures r.Some? ==> r.value.1 == [] || !IsDigit(r.value.1[0])
  {
    var (month, u) := TakeRun(Digit, t);
    var (gap1, v) := TakeRun(Space, u);
    if month == [] || v == [] || (v[0] != '/' && v[0] != '-') then None
    else
      var (gap2, w) := TakeRun(Space, v[1..]);
      var (day, rest) := TakeRun(Digit, w);
      if day == [] then None
      else
        NumericDateSpelling(month, gap1, v[0], gap2, day, rest, t, u, v, w);
        Some((NumericDateMatch(lead, month, gap1, v[0], gap2, day), rest))
  }

  /** The pieces of `(\d+)\s*[/-]\s*(\d+)`, read one after the other, spell out the text they were read from. */
  lemma NumericDateSpelling(month: string, gap1: string, sep: char, gap2: string, day: string, rest: string,
              t: string, u: string, v: string, w: string)
    requires t == month + u && u == gap1 + v && v != [] && v[0] == sep
    requires v[1..] == gap2 + w && w == day + rest
    ensures month + gap1 + [sep] + gap2 + day + rest == t
  {
    assert v == [sep] + v[1..];
  }

  /** A match of `\s*every\s+(jan|feb|...|dec)\w*\s+(\d+)`. */
  datatype MonthDayMatch = MonthDayMatch(lead: Lead, month: string, tail: string, gap: string, day: string) {
    function Matched(): string {
      lead.Matched() + Tail()
    }

    function Tail(): string {
      month + tail + gap + day
    }

    predicate Valid() {
      lead.Valid(EveryTag) && Shaped()
    }

    predicate Shaped() {
      && Lower(month) in Months && All(Word, tail)
      && gap != [] && All(Space, gap)
      && day != [] && All(Digit, day)
    }
  }

  function MatchMonthDay(s: string): (r: Option<(MonthDayMatch, string)>)
    ensures r.Some? ==> r.value.0.Valid() && r.value.0.Matched() + r.value.1 == s
    ensures r.Some? ==> r.value.1 == [] || !IsDigit(r.value.1[0])
  {
    match MatchLead(EveryTag, s)
    case None => None
    case Some((lead, t)) =>
      var r := MatchMonthDayAfter(lead, t);
      if r.Some? then JoinLead(lead.Matched(), r.value.0.Tail(), r.value.1, t); r else r
  }

  /** `\w*` after the month name is greedy and cannot give back a blank, so taking it all is the only choice. */
  function MatchMonthDayAfter(lead: Lead, t: string): (r: Option<(MonthDayMatch, string)>)
    ensures r.Some? ==> r.value.0.lead == lead && r.value.0.Shaped()
    ensures r.Some? ==> r.value.0.Tail() + r.value.1 == t
    ensures r.Some? ==> r.value.1 == [] || !IsDigit(r.value.1[0])
  {
    match MatchWord(Months, t)
    case None => None
    case Some((month, u)) =>
      var (tail, v) := TakeRun(Word, u);
      var (gap, w) := TakeRun(Space, v);
      var (day, rest) := TakeRun(Digit, w);
      if gap == [] || day == [] then None
      else
        ReadInOrder(month, tail, gap, day, rest, t, u, v, w);
        Some((MonthDayMatch(lead, month, tail, gap, day), rest))
  }

  /** Four pieces read one after the other spell out the text they were read from. */
  lemma ReadInOrder(x1: string, x2: string, x3: string, x4: string, rest: string,
              t: string, u: string, v: string, w: string)
    requires t == x1 + u && u == x2 + v && v == x3 + w && w == x4 + rest
    ensures x1 + x2 + x3 + x4 + rest == t
  {
  }

  /** A match of `\s*every\s+(\d+)\s+(jan|feb|...|dec)`. */
  datatype DayMonthMatch = DayMonthMatch(lead: Lead, day: string, gap: string, month: string) {
    function Matched(): string {
      lead.Matched() + Tail()
    }

    function Tail(): string {
      day + gap + month
    }

    predicate Valid() {
      lead.Valid(EveryTag) && Shaped()
    }

    predicate Shaped() {
      && day != [] && All(Digit, day)
      && gap != [] && All(Space, gap)
      && Lower(month) in Months
    }
  }

  function MatchDayMonth(s: string): (r: Option<(DayMonthMatch, string)>)
    ensures r.Some? ==> r.value.0.Valid() && r.value.0.Matched() + r.value.1 == s
  {
    match MatchLead(EveryTag, s)
    case None => None
    case Some((lead, t)) =>
      var r := MatchDayMonthAfter(lead, t);
      if r.Some? then JoinLead(lead.Matched(), r.value.0.Tail(), r.value.1, t); r else r
  }

  function MatchDayMonthAfter(lead: Lead, t: string): (r: Option<(DayMonthMatch, string)>)
    ensures r.Some? ==> r.value.0.lead == lead && r.value.0.Shaped()
    ensures r.Some? ==> r.value.0.Tail() + r.value.1 == t
  {
    var (day, u) := TakeRun(Digit, t);
    var (gap, v) := TakeRun(Space, u);
    if day == [] || gap == [] then None
    else
      match MatchWord(Months, v)
      case None => None
      case Some((month, rest)) =>
        DayMonthSpelling(day, gap, month, rest, t, u, v);
        Some((DayMonthMatch(lead, day, gap, month), rest))
  }

  /** The day's digits, the blanks and the month, read one after the other, spell out the text they were read from. */
  lemma DayMonthSpelling(day: string, gap: string, month: string, rest: string, t: string, u: string, v: string)
    requires t == day + u && u == gap + v && v == month + rest
    ensures day + gap + month + rest == t
  {
  }

  /** A match of `\s*every\s+([1-5])(?:st|nd|rd|th)?\s+(su|mo|tu|we|th|fr|sa)`. */
  datatype NthWeekdayMatch = NthWeekdayMatch(lead: Lead, ordinal: char, suffix: string, gap: string, weekday: string) {
    function Matched(): string {
      lead.Matched() + Tail()
    }

    function Tail(): string {
      [ordinal] + suffix + gap + weekday
    }

    predicate Valid() {
      lead.Valid(EveryTag) && Shaped()
    }

    predicate Shaped() {
      && '1' <= ordinal <= '5'
      && (suffix == [] || Lower(suffix) in OrdinalSuffixes)
      && gap != [] && All(Space, gap)
      && Lower(weekday) in Weekdays
    }
  }

  function MatchNthWeekday(s: string): (r: Option<(NthWeekdayMatch, string)>)
    ensures r.Some? ==> r.value.0.Valid() && r.value.0.Matched() + r.value.1 == s
  {
    match MatchLead(EveryTag, s)
    case None => None
    case Some((lead, t)) =>
      var r := MatchNthWeekdayAfter(lead, t);
      if r.Some? then JoinLead(lead.Matched(), r.value.0.Tail(), r.value.1, t); r else r
  }

  /** `(?:st|nd|rd|th)?`: the suffix when one is there, else nothing. */
  function MatchOrdinalSuffix(s: string): (r: (string, string))
    ensures r.0 + r.1 == s
    ensures r.0 == [] || Lower(r.0) in OrdinalSuffixes
  {
    match MatchWord(OrdinalSuffixes, s)
    case Some((x, rest)) => (x, rest)
    case None => ("", s)
  }

  /**
   * The optional suffix is tried first. When it is present but no blank
   * follows it, dropping it cannot help: a letter would then stand where `\s+`
   * needs a blank.
   */
  function MatchNthWeekdayAfter(lead: Lead, t: string): (r: Option<(NthWeekdayMatch, string)>)
    ensures r.Some? ==> r.value.0.lead == lead && r.value.0.Shaped()
    ensures r.Some? ==> r.value.0.Tail() + r.value.1 == t
  {
    if t == [] || !('1' <= t[0] <= '5') then None
    else
      var (suffix, u) := MatchOrdinalSuffix(t[1..]);
      var (gap, v) := TakeRun(Space, u);
      if gap == [] then None
      else
        match MatchWord(Weekdays, v)
        case None => None
        case Some((weekday, rest)) =>
          NthWeekdaySpelling(NthWeekdayMatch(lead, t[0], suffix, gap, weekday), rest, t, u, v);
          Some((NthWeekdayMatch(lead, t[0], suffix, gap, weekday), rest))
  }

  /** The pieces the nth-weekday pattern reads after its lead, in order, spell out the text. */
  lemma NthWeekdaySpelling(m: NthWeekdayMatch, rest: string, t: string, u: string, v: string)
    requires t != [] && m.ordinal == t[0]
    requires t[1..] == m.suffix + u && u == m.gap + v && v == m.weekday + rest
    ensures m.Tail() + rest == t
  {
    assert t == [t[0]] + t[1..];
    ReadInOrder([t[0]], m.suffix, m.gap, m.weekday, rest, t, t[1..], u, v);
  }

  /** A match of `\s*every\s+(\d+)`. */
  datatype DayOfMonthMatch = DayOfMonthMatch(lead: Lead, day: string) {
    function Matched(): string {
      lead.Matched() + Tail()
    }

    function Tail(): string {
      day
    }

    predicate Valid() {
      lead.Valid(EveryTag) && Shaped()
    }

    predicate Shaped() {
      day != [] && All(Digit, day)
    }
  }

  function MatchDayOfMonth(s: string): (r: Option<(DayOfMonthMatch, string)>)
    ensures r.Some? ==> r.value.0.Valid() && r.value.0.Matched() + r.value.1 == s
    ensures r.Some? ==> r.value.1 == [] || !IsDigit(r.value.1[0])
  {
    match MatchLead(EveryTag, s)
    case None => None
    case Some((lead, t)) =>
      var r := MatchDayOfMonthAfter(lead, t);
      if r.Some? then JoinLead(lead.Matched(), r.value.0.Tail(), r.value.1, t); r else r
  }

  function MatchDayOfMonthAfter(lead: Lead, t: string): (r: Option<(DayOfMonthMatch, string)>)
    ensures r.Some? ==> r.value.0.lead == lead && r.value.0.Shaped()
    ensures r.Some? ==> r.value.0.Tail() + r.value.1 == t
    ensures r.Some? ==> r.value.1 == [] || !IsDigit(r.value.1[0])
  {
    var (day, rest) := TakeRun(Digit, t);
    if day == [] then None
    else
      Some((DayOfMonthMatch(lead, day), rest))
  }

  /**
   * The month-name patterns in the order the translator tries them: the
   * month-before-day form, else the day-before-month form. Yields the month
   * group and the day group.
   */
  function MatchNamedMonth(s: string): (r: Option<(string, string)>)
    ensures r.Some? ==> Lower(r.value.0) in Months && r.value.1 != [] && All(Digit, r.value.1)
  {
    match MatchMonthDay(s)
    case Some((m, _)) => Some((m.month, m.day))
    case None =>
      match MatchDayMonth(s)
      case Some((m, _)) => Some((m.month, m.day))
      case None => None
  }

  /**
   * The translator: the first pattern that matches at the front of the phrase
   * decides the rule; upper() is applied to the whole rule. Digits are copied
   * as written, without a range check.
   */
  function ParseRecurrence(rstring: string): (rrule: string)
    ensures NoLower(rrule)
  {
    if rstring == [] then ""
    else
      match MatchInterval(rstring)
      case Some((m, _)) =>
        var freq := Upper(m.unit);
        var freq := if freq == "DAY" then "DAI" else freq;
        var interval := match m.count case None => "1" case Some(c) => c.digits;
        Upper("FREQ=" + freq + "LY;INTERVAL=" + interval)
      case None =>
        match MatchNumericDate(rstring)
        case Some((m, _)) => Upper("FREQ=YEARLY;BYMONTH=" + m.month + ";BYMONTHDAY=" + m.day)
        case None =>
          match MatchNamedMonth(rstring)
          case Some((month, day)) =>
            MonthTableMatchesPattern();
            Upper("FREQ=YEARLY;BYMONTH=" + DecimalString(MonthNumber[Lower(month)]) + ";BYMONTHDAY=" + day)
          case None =>
            match MatchNthWeekday(rstring)
            case Some((m, _)) => Upper("FREQ=MONTHLY;INTERVAL=1;BYDAY=" + [m.ordinal] + m.weekday)
            case None =>
              match MatchDayOfMonth(rstring)
              case Some((m, _)) => Upper("FREQ=MONTHLY;INTERVAL=1;BYMONTHDAY=" + m.day)
              case None => ""
  }

  /** The rule frequencies the phrases produce. */
  datatype Freq = Daily | Weekly | Monthly | Yearly

  /**
   * A structured rule. Numbers stay the digit strings of the phrase, since the
   * translator copies them verbatim.
   */
  datatype Rule = Rule(freq: Freq, interval: Option<string>, byDay: Option<string>,
                       byMonth: Option<string>, byMonthDay: Option<string>)

  function FreqName(f: Freq): string {
    match f
    case Daily => "DAILY"
    case Weekly => "WEEKLY"
    case Monthly => "MONTHLY"
    case Yearly => "YEARLY"
  }

  function Part(name: string, value: Option<string>): string {
    match value
    case None => ""
    case Some(v) => ";" + name + "=" + v
  }

  /** The rule string: present parts only, in the order FREQ, INTERVAL, BYDAY, BYMONTH, BYMONTHDAY. */
  function Render(r: Rule): string {
    "FREQ=" + FreqName(r.freq) + Part("INTERVAL", r.interval) + Part("BYDAY", r.byDay)
      + Part("BYMONTH", r.byMonth) + Part("BYMONTHDAY", r.byMonthDay)
  }

  /** The frequency a (lower-case) unit word names. */
  function UnitFreq(unit: string): Freq {
    if unit == "day" then Daily
    else if unit == "week" then Weekly
    else if unit == "month" then Monthly
    else Yearly
  }

  /** The rule each phrase family stands for, read off the match. */
  function IntervalRule(m: IntervalMatch): Rule {
    Rule(UnitFreq(Lower(m.unit)), Some(match m.count case None => "1" case Some(c) => c.digits), None, None, None)
  }

  function NumericDateRule(m: NumericDateMatch): Rule {
    Rule(Yearly, None, None, Some(m.month), Some(m.day))
  }

  function NamedMonthRule(month: string, day: string): Rule
    requires Lower(month) in MonthNumber
  {
    Rule(Yearly, None, None, Some(DecimalString(MonthNumber[Lower(month)])), Some(day))
  }

  function NthWeekdayRule(m: NthWeekdayMatch): Rule {
    Rule(Monthly, Some("1"), Some([m.ordinal] + Upper(m.weekday)), None, None)
  }

  function DayOfMonthRule(m: DayOfMonthMatch): Rule {
    Rule(Monthly, Some("1"), None, None, Some(m.day))
  }
}
