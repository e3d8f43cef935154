/** What each syntax of an EiBi day field turns into, stated against the
    set-of-days reference of the codec: comma lists, single abbreviations,
    "SaSu", the "1." prefix, ranges (with wrap-around) and digit strings, plus
    the error cases and the guard that only the online script has. */
module DayFields {
  import opened Wrappers
  import opened Text
  import opened Weekdays
  import opened DayCodec

  lemma JoinHead(parts: seq<string>, sep: char)
    requires |parts| > 0 && |parts[0]| > 0
    ensures |Join(parts, sep)| > 0 && Join(parts, sep)[0] == parts[0][0]
  {
  }

  /** A field of two or more comma-joined abbreviations contains a comma. */
  lemma JoinHasSeparator(parts: seq<string>, sep: char)
    requires |parts| >= 2
    ensures sep in Join(parts, sep)
  {
    assert Join(parts, sep)[|parts[0]|] == sep;
  }

  /** Every character of a join of separator-free parts is the separator or
      comes from a part. */
  lemma {:induction false} JoinAvoids(parts: seq<string>, sep: char, c: char)
    requires c != sep
    requires forall k :: 0 <= k < |parts| ==> c !in parts[k]
    ensures c !in Join(parts, sep)
    decreases |parts|
  {
    if |parts| > 1 {
      JoinAvoids(parts[1..], sep, c);
    }
  }

  /** A field the dispatch reads as the list of `ws`'s abbreviations lights
      exactly the days of `ws`. */
  lemma TokenListLetters(day: string, ws: seq<Weekday>, v: Variant)
    requires |ws| > 0
    requires Classify(day, v) == TokenList(Join(AbbrevsOf(ws), ','))
    ensures DayLetters(day, v) == Success(Render(DaysIn(ws)))
  {
    ListToBinstrings(ws);
    CombineOneHots(ws);
    DowOfMask(DaysIn(ws));
  }

  /** A comma list of abbreviations (or a single one) lights exactly the named
      days, whatever their order and repetitions. */
  lemma ListField(ws: seq<Weekday>, v: Variant)
    requires |ws| > 0
    ensures DayLetters(Join(AbbrevsOf(ws), ','), v) == Success(Render(DaysIn(ws)))
  {
    var names := AbbrevsOf(ws);
    var day := Join(names, ',');
    AbbrevShape(ws[0]);
    JoinHead(names, ',');
    assert !IsDigits(day);
    assert !StartsWith(day, "1.");
    if |ws| >= 2 {
      JoinHasSeparator(names, ',');
      assert day != "SaSu";
    } else {
      assert day == Abbrev(ws[0]);
      assert ParseAbbrev(Abbrev(ws[0])) == Some(ws[0]);
    }
    TokenListLetters(day, ws, v);
  }

  /** "SaSu" is read as "Sa,Su". */
  lemma SaSuField(v: Variant)
    ensures DayLetters("SaSu", v) == Success(Render({Sa, Su}))
  {
    var ws := [Sa, Su];
    assert Join(AbbrevsOf(ws), ',') == "Sa,Su";
    assert DaysIn(ws) == {Sa, Su};
    assert !IsDigits("SaSu") by {
      assert !IsAsciiDigit("SaSu"[0]);
    }
    assert !StartsWith("Sa,Su", "1.") by {
      assert "Sa,Su"[0] != '1';
    }
    TokenListLetters("SaSu", ws, v);
  }

  /** A "1." prefix is dropped and the rest read as a list. */
  lemma PrefixField(ws: seq<Weekday>, v: Variant)
    requires |ws| > 0
    ensures DayLetters("1." + Join(AbbrevsOf(ws), ','), v) == Success(Render(DaysIn(ws)))
  {
    var list := Join(AbbrevsOf(ws), ',');
    var day := "1." + list;
    assert !IsDigits(day) by {
      assert !IsAsciiDigit(day[1]);
    }
    assert StartsWith(day, "1.") && day[0] == '1';
    assert day != "SaSu";
    assert day[2..] == list;
    TokenListLetters(day, ws, v);
  }

  /** "Xx-Yy" lights the days of the cyclic walk from Xx to Yy. */
  lemma {:induction false} RangeField(x: Weekday, y: Weekday, v: Variant)
    ensures DayLetters(Abbrev(x) + "-" + Abbrev(y), v) == Success(Render(DaysIn(Cyclic(x, y))))
  {
    RangeShape(x, y, v);
    ExpandRange(x, y);
    assert |Cyclic(x, y)| > 0;
    ListToBinstrings(Cyclic(x, y));
    CombineOneHots(Cyclic(x, y));
    DowOfMask(DaysIn(Cyclic(x, y)));
  }

  /** "Xx-Yy" of two abbreviations takes the range branch. */
  lemma RangeShape(x: Weekday, y: Weekday, v: Variant)
    ensures Classify(Abbrev(x) + "-" + Abbrev(y), v) == Range
  {
    var day := Abbrev(x) + "-" + Abbrev(y);
    AbbrevShape(x);
    AbbrevShape(y);
    assert |day| == 5 && day[2] == '-' && day[4] == Abbrev(y)[1];
    assert !IsDigits(day);
    assert ',' !in day by {
      assert forall k :: 0 <= k < 5 ==> day[k] != ',';
    }
    assert day !in DaysDict by {
      if day in DaysDict {
        DaysDictOneHot(day);
      }
    }
    assert !StartsWith(day, "1.") by {
      assert day[0] == Abbrev(x)[0];
    }
  }


  /** Digits 1..7 name Monday..Sunday, 0 names Sunday too. */
  lemma DigitField(s: string, v: Variant)
    requires IsDigits(s) && WeekDigits(s)
    ensures DayLetters(s, v) == Success(Render(DaysIn(DigitDays(s))))
  {
    NumbersToBinstrings(s);
    CombineOneHots(DigitDays(s));
    DowOfMask(DaysIn(DigitDays(s)));
  }

  /** An 8 or a 9 in a digit field is an error (Python's IndexError). */
  lemma DigitFieldOutOfRange(s: string, v: Variant)
    requires IsDigits(s) && !WeekDigits(s)
    ensures DayLetters(s, v).Failure?
  {
    NumbersToBinstrings(s);
  }

  /** The online script refuses a field ending in a hyphen as a range, so a
      field that matches no earlier branch yields an empty day field there. */
  lemma TrailingHyphenOnline(day: string)
    requires |day| > 0 && day[|day| - 1] == '-'
    requires !IsDigits(day) && ',' !in day && day !in DaysDict && day != "SaSu" && !StartsWith(day, "1.")
    ensures DayLetters(day, Online) == Success("")
  {
  }

  /** An unrecognised field is no error: it yields an empty day field. */
  lemma UnmatchedIsEmpty(day: string, v: Variant)
    requires Classify(day, v) == NoMatch
    ensures DayLetters(day, v) == Success("")
  {
  }

  /** A field starting with a capital letter is neither a digit string nor
      "1."-prefixed. */
  lemma Capitalised(day: string)
    requires |day| > 0 && 'A' <= day[0] <= 'Z'
    ensures !IsDigits(day) && !StartsWith(day, "1.")
  {
  }

  /** Examples from the scripts' own comments. */
  lemma RangeExample()
    ensures ExpandWeekdayRange("Mo-Th") == Success("Mo,Tu,We,Th")
  {
    ExpandRange(Mo, Th);
    CyclicMoTh();
    MoThText();
  }

  lemma MoThText()
    ensures Abbrev(Mo) + "-" + Abbrev(Th) == "Mo-Th"
  {
  }

  lemma WrapRangeExample()
    ensures ExpandWeekdayRange("Sa-Tu") == Success("Sa,Su,Mo,Tu")
  {
    ExpandRange(Sa, Tu);
    CyclicSaTu();
    SaTuText();
  }

  lemma CyclicMoTh()
    ensures Cyclic(Mo, Th) == [Mo, Tu, We, Th]
    ensures Join(AbbrevsOf([Mo, Tu, We, Th]), ',') == "Mo,Tu,We,Th"
  {
  }

  lemma CyclicSaTu()
    ensures Cyclic(Sa, Tu) == [Sa, Su, Mo, Tu]
    ensures Join(AbbrevsOf([Sa, Su, Mo, Tu]), ',') == "Sa,Su,Mo,Tu"
  {
  }

  lemma SaTuText()
    ensures Abbrev(Sa) + "-" + Abbrev(Tu) == "Sa-Tu"
  {
  }

  lemma SaTuLetters()
    ensures Render(DaysIn(Cyclic(Sa, Tu))) == "MT___SS"
  {
    CyclicSaTu();
    assert DaysIn([Sa, Su, Mo, Tu]) == {Mo, Tu, Sa, Su};
  }

  /** A range that wraps past Sunday, as a rendered day field. */
  lemma WrapExample()
    ensures DayLetters("Sa-Tu", Online) == Success("MT___SS")
  {
    RangeField(Sa, Tu, Online);
    SaTuText();
    SaTuLetters();
  }

  lemma Digits1345()
    ensures IsDigits("1345") && WeekDigits("1345") && DigitDays("1345") == [Mo, We, Th, Fr]
  {
  }

  lemma Letters1345()
    ensures Render(DaysIn([Mo, We, Th, Fr])) == "M_WTF__"
  {
    assert DaysIn([Mo, We, Th, Fr]) == {Mo, We, Th, Fr};
  }

  lemma Digits0()
    ensures IsDigits("0") && WeekDigits("0") && DigitDays("0") == [Su]
    ensures Render(DaysIn([Su])) == "______S"
  {
    assert DaysIn([Su]) == {Su};
  }

  /** A digit field, and `0` standing for Sunday. */
  lemma DigitExamples()
    ensures DayLetters("1345", Standalone) == Success("M_WTF__")
    ensures DayLetters("0", Online) == Success("______S")
  {
    Digits1345();
    Letters1345();
    Digits0();
    DigitField("1345", Standalone);
    DigitField("0", Online);
  }

  /** `8` has no weekday. */
  lemma DigitErrorExample()
    ensures DayLetters("8", Standalone) == Failure(DigitOutOfRange('8'))
  {
    assert IsDigits("8");
    assert DigitNames("8") == Failure(DigitOutOfRange('8'));
  }

  /** A range that cannot be expanded fails the row with the expansion's error. */
  lemma RangeFailure(day: string, v: Variant)
    requires Classify(day, v) == Range && ExpandWeekdayRange(day).Failure?
    ensures DayLetters(day, v) == Failure(ExpandWeekdayRange(day).error)
  {
  }

  /** A list with a token outside `days` fails the row with that token. */
  lemma ListFailure(day: string, list: string, v: Variant)
    requires Classify(day, v) == TokenList(list) && WeekdaysToBinstrings(list).Failure?
    ensures DayLetters(day, v) == Failure(WeekdaysToBinstrings(list).error)
  {
  }

  lemma MoTuWeShape()
    ensures Classify("Mo-Tu-We", Standalone) == Range
  {
    Capitalised("Mo-Tu-We");
  }

  lemma MoTuWeSplit()
    ensures ExpandWeekdayRange("Mo-Tu-We") == Failure(RangeArity(3))
  {
    SplitJoin(["Mo", "Tu", "We"], '-');
    assert Join(["Mo", "Tu", "We"], '-') == "Mo-Tu-We";
  }

  /** Three endpoints are an error. */
  lemma ArityExample()
    ensures DayLetters("Mo-Tu-We", Standalone) == Failure(RangeArity(3))
  {
    MoTuWeShape();
    MoTuWeSplit();
    RangeFailure("Mo-Tu-We", Standalone);
  }

  lemma MoXxShape()
    ensures Classify("Mo-Xx", Standalone) == Range
  {
    Capitalised("Mo-Xx");
  }

  lemma MoXxSplit()
    ensures ExpandWeekdayRange("Mo-Xx") == Failure(UnknownEndpoint("Xx"))
  {
    SplitPair("Mo", "Xx", '-');
    assert "Mo" + ['-'] + "Xx" == "Mo-Xx";
    assert "Mo" in DaysDict && "Xx" !in DaysDict;
    TwoEnds("Mo-Xx", "Mo", "Xx");
  }

  /** Text without the separator on either side splits into the two sides. */
  lemma SplitPair(a: string, b: string, sep: char)
    requires sep !in a && sep !in b
    ensures Split(a + [sep] + b, sep) == [a, b]
  {
    SplitJoin([a, b], sep);
    assert Join([a, b], sep) == a + [sep] + b;
  }

  /** A two-part range fails at its first endpoint outside `days`. */
  lemma TwoEnds(range: string, a: string, b: string)
    requires Split(range, '-') == [a, b]
    ensures a !in DaysDict ==> ExpandWeekdayRange(range) == Failure(UnknownEndpoint(a))
    ensures a in DaysDict && b !in DaysDict ==> ExpandWeekdayRange(range) == Failure(UnknownEndpoint(b))
  {
  }

  /** A two-token list fails at its second token when only that one is
      outside `days`. */
  lemma LookupPair(a: string, b: string)
    requires a in DaysDict && b !in DaysDict
    ensures LookupDays([a, b]) == Failure(UnknownDay(b))
  {
    assert [a, b][1..] == [b];
  }

  /** An endpoint that is no abbreviation is an error. */
  lemma EndpointExample()
    ensures DayLetters("Mo-Xx", Standalone) == Failure(UnknownEndpoint("Xx"))
  {
    MoXxShape();
    MoXxSplit();
    RangeFailure("Mo-Xx", Standalone);
  }

  lemma MixedShape()
    ensures Classify("Mo,Tu-Th", Online) == TokenList("Mo,Tu-Th")
  {
    Capitalised("Mo,Tu-Th");
  }

  lemma MixedLookup()
    ensures WeekdaysToBinstrings("Mo,Tu-Th") == Failure(UnknownDay("Tu-Th"))
  {
    SplitPair("Mo", "Tu-Th", ',');
    assert "Mo" + [','] + "Tu-Th" == "Mo,Tu-Th";
    assert "Mo" in DaysDict && "Tu-Th" !in DaysDict;
    LookupPair("Mo", "Tu-Th");
  }

  /** A comma makes the field a list even when it holds a range, and the
      range inside is then an unknown day. */
  lemma ListPriorityExample()
    ensures DayLetters("Mo,Tu-Th", Online) == Failure(UnknownDay("Tu-Th"))
  {
    MixedShape();
    MixedLookup();
    ListFailure("Mo,Tu-Th", "Mo,Tu-Th", Online);
  }

  /** The one input shape on which the two scripts differ: a trailing hyphen
      is an error in the standalone script and an empty day field online. */
  lemma TrailingHyphenStandalone()
    ensures DayLetters("Mo-", Standalone) == Failure(UnknownEndpoint(""))
  {
    TrailingHyphenShape();
    TrailingHyphenSplit();
    RangeFailure("Mo-", Standalone);
  }

  lemma TrailingHyphenShape()
    ensures Classify("Mo-", Standalone) == Range
  {
    Capitalised("Mo-");
  }

  lemma TrailingHyphenSplit()
    ensures ExpandWeekdayRange("Mo-") == Failure(UnknownEndpoint(""))
  {
    SplitPair("Mo", "", '-');
    assert "Mo" + ['-'] + "" == "Mo-";
    assert "Mo" in DaysDict && "" !in DaysDict;
    TwoEnds("Mo-", "Mo", "");
  }

  lemma TrailingHyphenExample()
    ensures DayLetters("Mo-", Online) == Success("")
  {
    Capitalised("Mo-");
    assert Classify("Mo-", Online) == NoMatch;
  }
}
