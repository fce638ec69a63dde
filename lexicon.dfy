/**
 * The fixed word tables of the recurrence patterns: the alternations written
 * inside the regular expressions and the month table used to turn a matched
 * month abbreviation into its number.
 */
module Lexicon {
  import opened Text

  /** `(after|every)` in the interval pattern. */
  const IntervalTags: seq<string> := ["after", "every"]

  /** The literal `every` that opens every other pattern. */
  const EveryTag: seq<string> := ["every"]

  /** `(day|week|month|year)`. */
  const Units: seq<string> := ["day", "week", "month", "year"]

  /** `(jan|feb|...|dec)`, in the order the patterns list them. */
  const Months: seq<string> := ["jan", "feb", "mar", "apr", "may", "jun", "jul", "aug", "sep", "oct", "nov", "dec"]

  /** `(su|mo|tu|we|th|fr|sa)`. */
  const Weekdays: seq<string> := ["su", "mo", "tu", "we", "th", "fr", "sa"]

  /** `(?:st|nd|rd|th)`. */
  const OrdinalSuffixes: seq<string> := ["st", "nd", "rd", "th"]

  /** The month table: lower-case abbreviation to month number. */
  const MonthNumber: map<string, nat> := map[
    "jan" := 1, "feb" := 2, "mar" := 3, "apr" := 4, "may" := 5, "jun" := 6,
    "jul" := 7, "aug" := 8, "sep" := 9, "oct" := 10, "nov" := 11, "dec" := 12]

  /**
   * The month lookup cannot fail: the month alternation of the patterns is
   * exactly the key set of the month table, and the i-th alternative is month i+1.
   */
  lemma MonthTableMatchesPattern()
    ensures forall w :: w in Months <==> w in MonthNumber
    ensures forall i :: 0 <= i < |Months| ==> MonthNumber[Months[i]] == i + 1
  {
  }

  lemma TablesAreWords()
    ensures Words(IntervalTags) && Words(EveryTag) && Words(Units)
    ensures Words(Months) && Words(Weekdays) && Words(OrdinalSuffixes)
  {
  }

  /** At most one alternative of each table can match at a given place. */
  lemma TablesArePrefixFree()
    ensures PrefixFree(IntervalTags) && PrefixFree(EveryTag) && PrefixFree(Units)
    ensures PrefixFree(Months) && PrefixFree(Weekdays) && PrefixFree(OrdinalSuffixes)
  {
    SameLengthPrefixFree(IntervalTags, 5);
    SameLengthPrefixFree(EveryTag, 5);
    DistinctInitialsPrefixFree(Units);
    SameLengthPrefixFree(Months, 3);
    SameLengthPrefixFree(Weekdays, 2);
    SameLengthPrefixFree(OrdinalSuffixes, 2);
  }

  /** No unit word and month name share a prefix relation, so one never matches where the other stands. */
  lemma UnitsAreNotMonths()
    ensures forall u, v :: u in Units && v in Months ==> !IsPrefix(u, v) && !IsPrefix(v, u)
  {
    forall u, v | u in Units && v in Months
      ensures !IsPrefix(u, v) && !IsPrefix(v, u)
    {
      if u[0] != v[0] {
        DifferAt(u, v, 0);
      } else {
        DifferAt(u, v, 1);
      }
    }
  }

  /** No month name and weekday share a prefix relation. */
  lemma MonthsAreNotWeekdays()
    ensures forall u, v :: u in Months && v in Weekdays ==> !IsPrefix(u, v) && !IsPrefix(v, u)
  {
    forall u, v | u in Months && v in Weekdays
      ensures !IsPrefix(u, v) && !IsPrefix(v, u)
    {
      if u[0] != v[0] {
        DifferAt(u, v, 0);
      } else {
        DifferAt(u, v, 1);
      }
    }
  }
}
