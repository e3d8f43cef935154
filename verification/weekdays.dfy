/** The weekday vocabulary shared by both CSV scripts: the seven two-letter
    abbreviations in Monday-first order, the `days` dictionary of one-hot bit
    strings, and the letters of the `MTWTFSS` rendering. */
module Weekdays {
  import opened Wrappers

  datatype Weekday = Mo | Tu | We | Th | Fr | Sa | Su

  /** Monday-first order. */
  const Week: seq<Weekday> := [Mo, Tu, We, Th, Fr, Sa, Su]

  /** The `weekdays` / `daylist` lists of the scripts. */
  const Abbrevs: seq<string> := ["Mo", "Tu", "We", "Th", "Fr", "Sa", "Su"]

  /** The `days` dictionary: abbreviation to one-hot bit string. */
  const DaysDict: map<string, string> := map[
    "Mo" := "1000000",
    "Tu" := "0100000",
    "We" := "0010000",
    "Th" := "0001000",
    "Fr" := "0000100",
    "Sa" := "0000010",
    "Su" := "0000001"]

  /** The letters used by `binstring_to_dowstring`. */
  const DayInitials: string := "MTWTFSS"

  function Ordinal(d: Weekday): (i: nat)
    ensures i < 7 && Week[i] == d
  {
    match d
    case Mo => 0
    case Tu => 1
    case We => 2
    case Th => 3
    case Fr => 4
    case Sa => 5
    case Su => 6
  }

  function Abbrev(d: Weekday): string
  {
    Abbrevs[Ordinal(d)]
  }

  /** Looking a token up among the abbreviations (`list.index` or a `days` key). */
  function ParseAbbrev(s: string): (r: Option<Weekday>)
    ensures forall d :: r == Some(d) <==> Abbrev(d) == s
    ensures r.Some? <==> s in DaysDict
  {
    if s == "Mo" then Some(Mo)
    else if s == "Tu" then Some(Tu)
    else if s == "We" then Some(We)
    else if s == "Th" then Some(Th)
    else if s == "Fr" then Some(Fr)
    else if s == "Sa" then Some(Sa)
    else if s == "Su" then Some(Su)
    else None
  }

  /** The `days` entry of a weekday. */
  function OneHot(d: Weekday): (r: string)
    ensures |r| == 7
    ensures forall i :: 0 <= i < 7 ==> (r[i] == '1' <==> i == Ordinal(d))
    ensures forall i :: 0 <= i < 7 ==> r[i] == '0' || r[i] == '1'
  {
    DaysDict[Abbrev(d)]
  }

  /** Every abbreviation is a capital letter followed by a small one, so it
      holds neither separator nor the '.' of the "1." prefix. */
  lemma AbbrevShape(d: Weekday)
    ensures |Abbrev(d)| == 2
    ensures ',' !in Abbrev(d) && '-' !in Abbrev(d) && '.' !in Abbrev(d)
    ensures 'A' <= Abbrev(d)[0] <= 'Z' && 'a' <= Abbrev(d)[1] <= 'z'
  {
  }

  /** `Week` lists each weekday at its ordinal. */
  lemma OrdinalOfWeek(i: nat)
    requires i < 7
    ensures Ordinal(Week[i]) == i && Abbrev(Week[i]) == Abbrevs[i]
  {
  }

  /** Every entry of `days` is a one-hot string of length 7. */
  lemma DaysDictOneHot(k: string)
    requires k in DaysDict
    ensures ParseAbbrev(k).Some? && DaysDict[k] == OneHot(ParseAbbrev(k).value)
  {
  }
}
