/** The weekday-schedule codec shared (as duplicated code) by eibi2kiwi.py and
    eibi2kiwi_online.py: the day field of an EiBi row is classified, expanded
    to a list of `days` bit strings, OR-combined into one weekly bit string, and
    rendered as `MTWTFSS` letters with `_` for inactive days. */
module DayCodec {
  import opened Wrappers
  import opened Text
  import opened Numerals
  import opened Binary
  import opened Weekdays

  /** Why a day field cannot be converted; each is an exception in the scripts. */
  datatype DayError =
    | UnknownDay(token: string)       // KeyError from the `days` lookup
    | UnknownEndpoint(token: string)  // ValueError from `weekdays.index`
    | RangeArity(parts: nat)          // ValueError unpacking `split("-")`
    | NotADigit(c: char)              // ValueError from `int(number)`
    | DigitOutOfRange(c: char)        // IndexError from `daylist[index]`
    | LetterIndex(position: nat)      // IndexError from `days[i]`, i >= 7

  /** The two scripts differ in one guard of the day dispatch. */
  datatype Variant = Standalone | Online

  /** The set of days a list names. */
  function DaysIn(ws: seq<Weekday>): set<Weekday>
  {
    set d | d in ws
  }

  function AbbrevsOf(ws: seq<Weekday>): (r: seq<string>)
    ensures |r| == |ws|
    ensures forall k :: 0 <= k < |ws| ==> r[k] == Abbrev(ws[k])
  {
    seq(|ws|, k requires 0 <= k < |ws| => Abbrev(ws[k]))
  }

  function OneHots(ws: seq<Weekday>): (r: seq<string>)
    ensures |r| == |ws|
    ensures forall k :: 0 <= k < |ws| ==> r[k] == OneHot(ws[k])
  {
    seq(|ws|, k requires 0 <= k < |ws| => OneHot(ws[k]))
  }

  // ---------------------------------------------------------------- ranges

  /** Reference for ranges: the days met walking forward one day at a time from
      `x` to `y`, passing from Sunday to Monday when `y` comes before `x`. */
  function Cyclic(x: Weekday, y: Weekday): seq<Weekday>
  {
    seq((Ordinal(y) - Ordinal(x)) % 7 + 1, k => Week[(Ordinal(x) + k) % 7])
  }

  /** `expand_weekday_range`: "Xx-Yy" to the comma-joined abbreviations from Xx
      to Yy, wrapping past Sunday. */
  function ExpandWeekdayRange(range: string): (r: Result<string, DayError>)
    ensures Count(range, '-') != 1 ==> r == Failure(RangeArity(Count(range, '-') + 1))
    ensures r.Success? <==>
      |Split(range, '-')| == 2
      && ParseAbbrev(Split(range, '-')[0]).Some?
      && ParseAbbrev(Split(range, '-')[1]).Some?
  {
    SplitLength(range, '-');
    var ends := Split(range, '-');
    if |ends| != 2 then Failure(RangeArity(|ends|))
    else
      match (ParseAbbrev(ends[0]), ParseAbbrev(ends[1]))
      case (None, _) => Failure(UnknownEndpoint(ends[0]))
      case (_, None) => Failure(UnknownEndpoint(ends[1]))
      case (Some(x), Some(y)) =>
        var si, ei := Ordinal(x), Ordinal(y);
        Success(Join(if si <= ei then Abbrevs[si..ei + 1] else Abbrevs[si..] + Abbrevs[..ei + 1], ','))
  }

  /** `n` elements of `a` read cyclically from position `start`. */
  function Rotation<T>(a: seq<T>, start: nat, n: nat): (r: seq<T>)
    requires |a| > 0
    ensures |r| == n && forall k :: 0 <= k < n ==> r[k] == a[(start + k) % |a|]
  {
    seq(n, k requires 0 <= k < n => a[(start + k) % |a|])
  }

  lemma StraightSlice<T>(a: seq<T>, si: nat, ei: nat)
    requires si <= ei < |a|
    ensures a[si..ei + 1] == Rotation(a, si, ei - si + 1)
  {
    var r := Rotation(a, si, ei - si + 1);
    forall k | 0 <= k < |r|
      ensures r[k] == a[si + k]
    {
      ModBelow(si + k, |a|);
    }
  }

  lemma ModBelow(m: nat, n: nat)
    requires m < n
    ensures m % n == m
  {
  }

  lemma ModNegative(m: int, n: nat)
    requires -(n as int) <= m < 0
    ensures m % n == m + n
  {
    assert m == -1 * n + (m + n);
  }

  lemma ModWrap(m: nat, n: nat)
    requires n <= m < 2 * n
    ensures m % n == m - n
  {
    assert m == 1 * n + (m - n);
  }

  lemma WrappedSlice<T>(a: seq<T>, si: nat, ei: nat)
    requires ei < si < |a|
    ensures a[si..] + a[..ei + 1] == Rotation(a, si, |a| - si + ei + 1)
  {
    var r := Rotation(a, si, |a| - si + ei + 1);
    var slice := a[si..] + a[..ei + 1];
    forall k | 0 <= k < |r|
      ensures r[k] == slice[k]
    {
      if si + k < |a| {
        ModBelow(si + k, |a|);
      } else {
        ModWrap(si + k, |a|);
      }
    }
  }

  /** The cyclic walk's abbreviations are `Abbrevs` read cyclically. */
  lemma WalkRotation(x: Weekday, y: Weekday)
    ensures AbbrevsOf(Cyclic(x, y)) == Rotation(Abbrevs, Ordinal(x), |Cyclic(x, y)|)
  {
    var walk := AbbrevsOf(Cyclic(x, y));
    forall k | 0 <= k < |walk|
      ensures walk[k] == Abbrevs[(Ordinal(x) + k) % 7]
    {
      WalkAt(x, y, k);
    }
  }

  lemma WalkAt(x: Weekday, y: Weekday, k: nat)
    requires k < |Cyclic(x, y)|
    ensures Abbrev(Cyclic(x, y)[k]) == Abbrevs[(Ordinal(x) + k) % 7]
  {
    var j := (Ordinal(x) + k) % 7;
    assert Cyclic(x, y)[k] == Week[j];
    OrdinalOfWeek(j);
  }

  /** The slice arithmetic of `expand_weekday_range` agrees with the cyclic walk. */
  lemma SliceIsCyclic(x: Weekday, y: Weekday)
    ensures var si, ei := Ordinal(x), Ordinal(y);
      (if si <= ei then Abbrevs[si..ei + 1] else Abbrevs[si..] + Abbrevs[..ei + 1])
      == AbbrevsOf(Cyclic(x, y))
  {
    WalkRotation(x, y);
    SliceRotation(Abbrevs, Ordinal(x), Ordinal(y));
    CyclicLength(x, y);
  }

  /** Both slice forms read `a` cyclically from `si`. */
  lemma SliceRotation<T>(a: seq<T>, si: nat, ei: nat)
    requires si < |a| && ei < |a|
    ensures si <= ei ==> a[si..ei + 1] == Rotation(a, si, ei - si + 1)
    ensures si > ei ==> a[si..] + a[..ei + 1] == Rotation(a, si, |a| - si + ei + 1)
  {
    if si <= ei {
      StraightSlice(a, si, ei);
    } else {
      WrappedSlice(a, si, ei);
    }
  }

  /** The walk's length: end - start + 1 days without wrap-around,
      8 - start + end with it. */
  lemma CyclicLength(x: Weekday, y: Weekday)
    ensures |Cyclic(x, y)| ==
      if Ordinal(x) <= Ordinal(y) then Ordinal(y) - Ordinal(x) + 1 else 8 - Ordinal(x) + Ordinal(y)
  {
    var si, ei := Ordinal(x), Ordinal(y);
    if si <= ei {
      ModBelow(ei - si, 7);
    } else {
      ModNegative(ei as int - si as int, 7);
    }
  }


  /** A well-formed range expands to the cyclic walk between its endpoints:
      end - start + 1 days without wrap-around, 8 - start + end with it. */
  lemma {:induction false} ExpandRange(x: Weekday, y: Weekday)
    ensures ExpandWeekdayRange(Abbrev(x) + "-" + Abbrev(y)) == Success(Join(AbbrevsOf(Cyclic(x, y)), ','))
    ensures |Cyclic(x, y)| ==
      if Ordinal(x) <= Ordinal(y) then Ordinal(y) - Ordinal(x) + 1 else 8 - Ordinal(x) + Ordinal(y)
  {
    RangeEnds(x, y);
    SliceIsCyclic(x, y);
  }

  /** A range of two abbreviations splits into them. */
  lemma RangeEnds(x: Weekday, y: Weekday)
    ensures Split(Abbrev(x) + "-" + Abbrev(y), '-') == [Abbrev(x), Abbrev(y)]
  {
    AbbrevShape(x);
    AbbrevShape(y);
    assert Join([Abbrev(x), Abbrev(y)], '-') == Abbrev(x) + "-" + Abbrev(y);
    SplitJoin([Abbrev(x), Abbrev(y)], '-');
  }

  // ------------------------------------------------------ day-name lookups

  /** Looking every token up in `days`; the first missing one is the error. */
  function LookupDays(tokens: seq<string>): (r: Result<seq<string>, DayError>)
    ensures r.Success? <==> forall k :: 0 <= k < |tokens| ==> tokens[k] in DaysDict
    ensures r.Success? ==> |r.value| == |tokens|
    ensures r.Success? ==> forall k :: 0 <= k < |tokens| ==> tokens[k] in DaysDict && r.value[k] == DaysDict[tokens[k]]
    ensures r.Failure? ==> r.error.UnknownDay? && r.error.token in tokens && r.error.token !in DaysDict
  {
    if |tokens| == 0 then Success([])
    else if tokens[0] !in DaysDict then Failure(UnknownDay(tokens[0]))
    else
      var rest :- LookupDays(tokens[1..]);
      Success([DaysDict[tokens[0]]] + rest)
  }

  /** `weekdays_to_binstrings`: split on commas and look each token up in `days`. */
  function WeekdaysToBinstrings(weekdays: string): (r: Result<seq<string>, DayError>)
    ensures r.Success? ==> |r.value| == Count(weekdays, ',') + 1
    ensures r.Success? ==> forall j :: 0 <= j < |r.value| ==> r.value[j] in DaysDict.Values
    ensures r.Failure? ==> r.error.UnknownDay? && r.error.token !in DaysDict && ',' !in r.error.token
  {
    SplitLength(weekdays, ',');
    SplitPartsFree(weekdays, ',');
    LookupDays(Split(weekdays, ','))
  }

  /** A comma-joined list of abbreviations yields their one-hot strings in order. */
  lemma ListToBinstrings(ws: seq<Weekday>)
    requires |ws| > 0
    ensures WeekdaysToBinstrings(Join(AbbrevsOf(ws), ',')) == Success(OneHots(ws))
  {
    var names := AbbrevsOf(ws);
    forall k | 0 <= k < |names|
      ensures ',' !in names[k] && names[k] in DaysDict
    {
      AbbrevShape(ws[k]);
      assert ParseAbbrev(Abbrev(ws[k])) == Some(ws[k]);
    }
    SplitJoin(names, ',');
    var r := LookupDays(names);
    assert r.Success?;
    assert r.value == OneHots(ws);
  }

  /** Python's `xs[i]`, where a negative `i` counts from the end. */
  function PyIndex<T>(xs: seq<T>, i: int): Option<T>
  {
    if 0 <= i < |xs| then Some(xs[i])
    else if -|xs| <= i < 0 then Some(xs[|xs| + i])
    else None
  }

  /** The loop of `weekdaynumbers_to_binstrings`: `daylist[int(number) - 1]`. */
  function DigitNames(numbers: string): Result<seq<string>, DayError>
  {
    if |numbers| == 0 then Success([])
    else
      var c := numbers[0];
      if !IsAsciiDigit(c) then Failure(NotADigit(c))
      else
        match PyIndex(Abbrevs, DigitValue(c) - 1)
        case None => Failure(DigitOutOfRange(c))
        case Some(name) =>
          var rest :- DigitNames(numbers[1..]);
          Success([name] + rest)
  }

  /** `weekdaynumbers_to_binstrings`: digits to names, joined, then looked up. */
  function WeekdayNumbersToBinstrings(numbers: string): Result<seq<string>, DayError>
  {
    var names :- DigitNames(numbers);
    WeekdaysToBinstrings(Join(names, ','))
  }

  /** Reference for digits: 1 = Monday .. 7 = Sunday; `0` reaches Sunday through
      Python's index -1. */
  function DigitDay(c: char): Weekday
    requires '0' <= c <= '7'
  {
    if c == '0' then Su else Week[DigitValue(c) - 1]
  }

  predicate WeekDigits(s: string) {
    forall i :: 0 <= i < |s| ==> '0' <= s[i] <= '7'
  }

  function DigitDays(s: string): (ws: seq<Weekday>)
    requires WeekDigits(s)
    ensures |ws| == |s|
    ensures forall i :: 0 <= i < |s| ==> ws[i] == DigitDay(s[i])
  {
    seq(|s|, i requires 0 <= i < |s| => DigitDay(s[i]))
  }

  /** One digit's lookup: '0' reaches Sunday through index -1. */
  lemma DigitName(c: char)
    requires '0' <= c <= '7'
    ensures IsAsciiDigit(c) && PyIndex(Abbrevs, DigitValue(c) - 1) == Some(Abbrev(DigitDay(c)))
  {
    if c != '0' {
      OrdinalOfWeek(DigitValue(c) - 1);
    }
  }

  lemma {:induction false} DigitNamesSpec(s: string)
    requires WeekDigits(s)
    ensures DigitNames(s) == Success(AbbrevsOf(DigitDays(s)))
  {
    if |s| > 0 {
      assert WeekDigits(s[1..]) by {
        assert forall i :: 0 <= i < |s| - 1 ==> s[1..][i] == s[i + 1];
      }
      DigitNamesSpec(s[1..]);
      DigitName(s[0]);
      DigitDaysCons(s);
    }
  }

  lemma DigitDaysCons(s: string)
    requires |s| > 0 && WeekDigits(s) && WeekDigits(s[1..])
    ensures AbbrevsOf(DigitDays(s)) == [Abbrev(DigitDay(s[0]))] + AbbrevsOf(DigitDays(s[1..]))
  {
    var a, b := AbbrevsOf(DigitDays(s)), [Abbrev(DigitDay(s[0]))] + AbbrevsOf(DigitDays(s[1..]));
    forall i | 0 <= i < |a|
      ensures a[i] == b[i]
    {
      if i > 0 {
        assert s[i] == s[1..][i - 1];
      }
    }
  }


  lemma {:induction false} DigitNamesFail(s: string)
    requires AllDigits(s)
    ensures DigitNames(s).Success? <==> WeekDigits(s)
  {
    if |s| > 0 {
      DigitNamesFail(s[1..]);
      if s[0] <= '7' {
        assert WeekDigits(s) <==> WeekDigits(s[1..]);
      }
    }
  }

  /** `weekdaynumbers_to_binstrings` maps each digit d of 1..7, in order, to the
      one-hot string with its `1` at d - 1 (and `0` to Sunday's); it fails
      exactly when an `8` or `9` occurs. */
  lemma NumbersToBinstrings(s: string)
    requires IsDigits(s)
    ensures WeekdayNumbersToBinstrings(s).Success? <==> WeekDigits(s)
    ensures WeekDigits(s) ==> WeekdayNumbersToBinstrings(s) == Success(OneHots(DigitDays(s)))
  {
    DigitNamesFail(s);
    if WeekDigits(s) {
      DigitNamesSpec(s);
      ListToBinstrings(DigitDays(s));
    }
  }

  // ------------------------------------------------------------- combining

  /** The length of the shortest string: where `zip` stops. */
  function MinLen(bins: seq<string>): (n: nat)
    requires |bins| > 0
    ensures forall j :: 0 <= j < |bins| ==> n <= |bins[j]|
    ensures exists j :: 0 <= j < |bins| && n == |bins[j]|
  {
    if |bins| == 1 then |bins[0]|
    else
      var rest := MinLen(bins[1..]);
      if |bins[0]| <= rest then |bins[0]| else rest
  }

  /** Some input string has a `1` at position `i`. */
  function AnyOneAt(bins: seq<string>, i: nat): (b: bool)
    ensures b <==> exists j :: 0 <= j < |bins| && i < |bins[j]| && bins[j][i] == '1'
  {
    if |bins| == 0 then false
    else (i < |bins[0]| && bins[0][i] == '1') || AnyOneAt(bins[1..], i)
  }

  /** `create_weekly_binstring`: `zip` the strings and OR each column. */
  function CreateWeeklyBinstring(bins: seq<string>): (r: string)
    ensures |bins| == 0 ==> r == ""
    ensures |bins| > 0 ==> |r| == MinLen(bins)
    ensures forall i :: 0 <= i < |r| ==> r[i] == '0' || r[i] == '1'
    ensures forall i :: 0 <= i < |r| ==>
      (r[i] == '1' <==> exists j :: 0 <= j < |bins| && i < |bins[j]| && bins[j][i] == '1')
  {
    if |bins| == 0 then ""
    else seq(MinLen(bins), i requires 0 <= i < MinLen(bins) => if AnyOneAt(bins, i) then '1' else '0')
  }

  /** The combined string depends only on which strings occur, not on their
      order or repetition. */
  lemma CombineSameElements(a: seq<string>, b: seq<string>)
    requires forall x :: x in a <==> x in b
    ensures CreateWeeklyBinstring(a) == CreateWeeklyBinstring(b)
  {
    assert |a| > 0 ==> a[0] in b;
    assert |b| > 0 ==> b[0] in a;
    if |a| > 0 {
      MinLenSameElements(a, b);
      var ra, rb := CreateWeeklyBinstring(a), CreateWeeklyBinstring(b);
      forall i | 0 <= i < |ra|
        ensures ra[i] == rb[i]
      {
        AnyOneSameElements(a, b, i);
      }
    }
  }

  lemma MinLenSameElements(a: seq<string>, b: seq<string>)
    requires |a| > 0 && |b| > 0
    requires forall x :: x in a <==> x in b
    ensures MinLen(a) == MinLen(b)
  {
    var ja :| 0 <= ja < |a| && MinLen(a) == |a[ja]|;
    var jb :| 0 <= jb < |b| && MinLen(b) == |b[jb]|;
    assert a[ja] in b;
    assert b[jb] in a;
  }

  lemma AnyOneSameElements(a: seq<string>, b: seq<string>, i: nat)
    requires forall x :: x in a <==> x in b
    ensures AnyOneAt(a, i) == AnyOneAt(b, i)
  {
    if AnyOneAt(a, i) {
      var j :| 0 <= j < |a| && i < |a[j]| && a[j][i] == '1';
      assert a[j] in b;
    }
    if AnyOneAt(b, i) {
      var j :| 0 <= j < |b| && i < |b[j]| && b[j][i] == '1';
      assert b[j] in a;
    }
  }

  /** The per-day bit string of a set of days. */
  function MaskBits(days: set<Weekday>): (r: string)
    ensures |r| == 7
    ensures forall i :: 0 <= i < 7 ==> r[i] == (if Week[i] in days then '1' else '0')
  {
    seq(7, i requires 0 <= i < 7 => if Week[i] in days then '1' else '0')
  }

  /** OR-combining the one-hot strings of a nonempty list gives the bit string
      of the set of days it names. */
  lemma CombineOneHots(ws: seq<Weekday>)
    requires |ws| > 0
    ensures CreateWeeklyBinstring(OneHots(ws)) == MaskBits(DaysIn(ws))
  {
    var bins := OneHots(ws);
    var r := CreateWeeklyBinstring(bins);
    assert |r| == 7;
    forall i | 0 <= i < 7
      ensures r[i] == MaskBits(DaysIn(ws))[i]
    {
      OrdinalOfWeek(i);
      if Week[i] in DaysIn(ws) {
        var k :| 0 <= k < |ws| && ws[k] == Week[i];
        assert bins[k][i] == '1';
      }
    }
  }

  // ---------------------------------------------------------- serializers

  predicate IsBinary(s: string) {
    forall i :: 0 <= i < |s| ==> s[i] == '0' || s[i] == '1'
  }

  function BitsOf(s: string): (b: seq<bool>)
    ensures |b| == |s| && forall i :: 0 <= i < |s| ==> b[i] == (s[i] == '1')
  {
    seq(|s|, i requires 0 <= i < |s| => s[i] == '1')
  }

  /** `binstring_to_decimal` returns an int for a 0/1 string and its argument
      otherwise. */
  datatype Decimal = Num(n: nat) | Unchanged(text: string)

  /** `int(c) * pow(2, len - i - 1)` summed from position `i` on. */
  function PowerSum(s: string, i: nat): nat
    requires i <= |s|
    decreases |s| - i
  {
    if i == |s| then 0
    else (if s[i] == '1' then 1 else 0) * Pow2(|s| - i - 1) + PowerSum(s, i + 1)
  }

  lemma {:induction false} PowerSumIsValue(s: string, i: nat)
    requires i <= |s|
    ensures PowerSum(s, i) == Value(BitsOf(s)[i..])
    decreases |s| - i
  {
    if i < |s| {
      PowerSumIsValue(s, i + 1);
      var bits := BitsOf(s);
      assert bits[i..] == [bits[i]] + bits[i + 1..];
      ValueCons(bits[i], bits[i + 1..]);
    } else {
      assert BitsOf(s)[i..] == [];
    }
  }

  /** `binstring_to_decimal`: the big-endian value of a 0/1 string (first
      character most significant), or the string itself for anything else. */
  function BinstringToDecimal(s: string): (r: Decimal)
    ensures r.Num? <==> IsBinary(s)
    ensures r.Unchanged? ==> r.text == s
    ensures r.Num? ==> r.n == Value(BitsOf(s)) && r.n < Pow2(|s|)
  {
    if IsBinary(s) then
      PowerSumIsValue(s, 0);
      ValueBound(BitsOf(s));
      assert BitsOf(s)[0..] == BitsOf(s);
      Num(PowerSum(s, 0))
    else Unchanged(s)
  }

  /** The character `binstring_to_dowstring` emits for position `i`. */
  function LetterFor(s: string, i: nat): char
    requires i < |s|
  {
    if s[i] == '1' && i < 7 then DayInitials[i] else '_'
  }

  /** The loop of `binstring_to_dowstring` from position `i` on. */
  function DowFrom(s: string, i: nat): (r: Result<string, DayError>)
    requires i <= |s|
    ensures r.Success? <==> forall k :: i <= k < |s| && 7 <= k ==> s[k] != '1'
    ensures r.Success? ==> |r.value| == |s| - i
    ensures r.Success? ==> forall k :: 0 <= k < |r.value| ==> r.value[k] == LetterFor(s, i + k)
    decreases |s| - i
  {
    if i == |s| then Success("")
    else if s[i] == '1' && i >= 7 then Failure(LetterIndex(i))
    else
      var rest :- DowFrom(s, i + 1);
      Success([LetterFor(s, i)] + rest)
  }

  /** `binstring_to_dowstring`: the day's initial where the bit is `1`, `_`
      elsewhere; a `1` beyond the seventh position has no initial. */
  function BinstringToDowstring(s: string): (r: Result<string, DayError>)
    ensures r.Success? <==> forall k :: 7 <= k < |s| ==> s[k] != '1'
    ensures r.Success? ==> |r.value| == |s|
    ensures r.Success? ==> forall k :: 0 <= k < |s| ==>
      r.value[k] == (if s[k] == '1' && k < 7 then DayInitials[k] else '_')
  {
    DowFrom(s, 0)
  }

  /** The letter rendering of a set of days. */
  function Render(days: set<Weekday>): (r: string)
    ensures |r| == 7
    ensures forall i :: 0 <= i < 7 ==> (r[i] != '_' <==> Week[i] in days)
    ensures forall i :: 0 <= i < 7 ==> r[i] == '_' || r[i] == DayInitials[i]
  {
    seq(7, i requires 0 <= i < 7 => if Week[i] in days then DayInitials[i] else '_')
  }

  lemma DowOfMask(days: set<Weekday>)
    ensures BinstringToDowstring(MaskBits(days)) == Success(Render(days))
  {
    var r := BinstringToDowstring(MaskBits(days));
    assert r.Success?;
    forall k | 0 <= k < 7
      ensures r.value[k] == Render(days)[k]
    {
      assert r.value[k] == LetterFor(MaskBits(days), 0 + k);
    }
    assert r.value == Render(days);
  }

  // ------------------------------------------------------------ dispatch

  /** The syntax of a day field, in the order the scripts test for it. */
  datatype DayShape =
    | DigitList              // "1345"
    | TokenList(list: string) // "Mo,We", "Fr", "SaSu", "1.Mo,We", after rewriting
    | Range                  // "Mo-Fr", "Sa-Tu"
    | NoMatch

  /** The `if/elif` chain of the row loop. The online script additionally
      refuses a field ending in a hyphen as a range. */
  function Classify(day: string, v: Variant): DayShape
  {
    if IsDigits(day) then DigitList
    else if ',' in day || day in DaysDict || day == "SaSu" || StartsWith(day, "1.") then
      var unpaired := if day == "SaSu" then "Sa,Su" else day;
      TokenList(if StartsWith(unpaired, "1.") then unpaired[2..] else unpaired)
    else if '-' in day && (v == Standalone || day[|day| - 1] != '-') then Range
    else NoMatch
  }

  lemma SevenWide(bins: seq<string>)
    requires |bins| > 0
    requires forall j :: 0 <= j < |bins| ==> |bins[j]| == 7
    ensures |CreateWeeklyBinstring(bins)| == 7
  {
  }

  lemma LookupSevenWide(tokens: seq<string>)
    requires LookupDays(tokens).Success?
    ensures forall j :: 0 <= j < |LookupDays(tokens).value| ==> |LookupDays(tokens).value[j]| == 7
  {
    var r := LookupDays(tokens).value;
    forall j | 0 <= j < |r|
      ensures |r[j]| == 7
    {
      DaysDictOneHot(tokens[j]);
    }
  }

  /** The weekly bit string a day field produces; None when no branch applies. */
  function DayBinstring(day: string, v: Variant): (r: Result<Option<string>, DayError>)
    ensures r.Success? ==> (r.value.None? <==> Classify(day, v) == NoMatch)
    ensures r.Success? && r.value.Some? ==> |r.value.value| == 7 && IsBinary(r.value.value)
  {
    match Classify(day, v)
    case DigitList =>
      var bins :- WeekdayNumbersToBinstrings(day);
      LookupSevenWide(Split(Join(DigitNames(day).value, ','), ','));
      SevenWide(bins);
      Success(Some(CreateWeeklyBinstring(bins)))
    case TokenList(list) =>
      var bins :- WeekdaysToBinstrings(list);
      LookupSevenWide(Split(list, ','));
      SevenWide(bins);
      Success(Some(CreateWeeklyBinstring(bins)))
    case Range =>
      var list :- ExpandWeekdayRange(day);
      var bins :- WeekdaysToBinstrings(list);
      LookupSevenWide(Split(list, ','));
      SevenWide(bins);
      Success(Some(CreateWeeklyBinstring(bins)))
    case NoMatch => Success(None)
  }

  /** The `DOW` value a row ends with before quoting: the letter rendering of
      the weekly bit string, or "" when no branch applies. */
  function DayLetters(day: string, v: Variant): (r: Result<string, DayError>)
    ensures r.Success? ==> (r.value == "" <==> Classify(day, v) == NoMatch)
    ensures r.Success? && r.value != "" ==>
      |r.value| == 7 && forall i :: 0 <= i < 7 ==> r.value[i] == '_' || r.value[i] == DayInitials[i]
  {
    var bits :- DayBinstring(day, v);
    match bits
    case None => Success("")
    case Some(s) => BinstringToDowstring(s)
  }
}
