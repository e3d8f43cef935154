/** The row loop of the two CSV scripts: every EiBi row after the header
    becomes one kiwiSDR record (frequency, quoted identifier, notes and T3/T4
    tag, the day field, clamped begin and end times). The online script also
    resolves transmitter sites through a lookup table, drops "one-day" rows
    and sorts its output by frequency. */
module Schedule {
  import opened Wrappers
  import opened Text
  import opened Numerals
  import opened Weekdays
  import opened DayCodec
  import opened FreqSort

  /** Why a row stops the script; each is an exception in Python. */
  datatype RowError =
    | MissingField(index: nat)    // IndexError on `row[index]`
    | BadFrequency(text: string)  // ValueError from `float(row[0])`
    | TimeRangeArity(parts: nat)  // ValueError unpacking `row[1].split("-")`
    | BadDay(reason: DayError)    // an exception in the weekday helpers

  /** `next(reader)` on an empty file, or the first failing data row, counted
      from 0 after the header. */
  datatype RunError = MissingHeader | AtRecord(index: nat, reason: RowError)

  /** The fields one output line is built from. `dow` is the day field as
      written: empty or the quoted letters. */
  datatype OutputRecord = OutputRecord(
    khz: real, ident: string, notes: string, tag: string, dow: string, begin: string, end: string)

  function Khz(r: OutputRecord): real
  {
    r.khz
  }

  function Field(row: seq<string>, i: nat): (r: Result<string, RowError>)
    ensures r.Success? <==> i < |row|
    ensures r.Success? ==> r.value == row[i]
    ensures r.Failure? ==> r.error == MissingField(i)
  {
    if i < |row| then Success(row[i]) else Failure(MissingField(i))
  }

  // ------------------------------------------------------------ time fields

  /** `begin, end = row[1].split("-")`: exactly one hyphen. */
  function SplitTimes(field: string): (r: Result<(string, string), RowError>)
    ensures r.Success? <==> Count(field, '-') == 1
    ensures r.Failure? ==> r.error == TimeRangeArity(Count(field, '-') + 1)
    ensures r.Success? ==> r.value.0 + "-" + r.value.1 == field && '-' !in r.value.0 && '-' !in r.value.1
  {
    SplitLength(field, '-');
    var parts := Split(field, '-');
    if |parts| != 2 then Failure(TimeRangeArity(|parts|))
    else
      JoinSplit(field, '-');
      SplitPartsFree(field, '-');
      assert Join(parts, '-') == parts[0] + "-" + parts[1];
      Success((parts[0], parts[1]))
  }

  /** Every "Xxxx-Yyyy" with hyphen-free times splits back into its times. */
  lemma SplitTimesJoin(b: string, e: string)
    requires '-' !in b && '-' !in e
    ensures SplitTimes(b + "-" + e) == Success((b, e))
  {
    SplitJoin([b, e], '-');
    assert Join([b, e], '-') == b + "-" + e;
  }

  /** The start of the day is written "0001" rather than "0000". */
  function ClampBegin(t: string): (r: string)
    ensures r != "0000"
    ensures t == "0000" ==> r == "0001"
    ensures t != "0000" ==> r == t
  {
    if t == "0000" then "0001" else t
  }

  /** The end of the day is written "2359" rather than "2400". */
  function ClampEnd(t: string): (r: string)
    ensures r != "2400"
    ensures t == "2400" ==> r == "2359"
    ensures t != "2400" ==> r == t
  {
    if t == "2400" then "2359" else t
  }

  /** Frequency and clamped times, read in the order the scripts read them. */
  function RowHead(row: seq<string>): (r: Result<(real, string, string), RowError>)
    ensures r.Success? <==>
      |row| >= 2 && ParseDecimal(row[0]).Some? && Count(row[1], '-') == 1
  {
    var f0 :- Field(row, 0);
    var khz :- if ParseDecimal(f0).Some? then Success(ParseDecimal(f0).value) else Failure(BadFrequency(f0));
    var f1 :- Field(row, 1);
    var times :- SplitTimes(f1);
    Success((khz, ClampBegin(times.0), ClampEnd(times.1)))
  }

  // ------------------------------------------------------- tag and notes

  /** "T4" when the stripped language is empty or starts with '-', else "T3". */
  function TypeTag(lang: string): (r: string)
    ensures r == "T3" || r == "T4"
    ensures r == "T4" <==> Strip(lang) == "" || Strip(lang)[0] == '-'
  {
    var l := Strip(lang);
    if StartsWith(l, "-") || l == "" then "T4" else "T3"
  }

  function LangNote(lang: string): string
  {
    var l := Strip(lang);
    if l == "" then "" else "Lang: " + l
  }

  function TargetNote(target: string): string
  {
    var t := Strip(target);
    if t == "" then "" else "Target: " + t + "."
  }

  /** The standalone script's notes before trimming: the remarks field,
      when present, is written as "via" the station. */
  function NotesStandalone(itu: string, rem: string, target: string, lang: string): string
  {
    if rem == "" then itu + ". " + TargetNote(target) + " " + LangNote(lang)
    else itu + " via " + rem + ". " + TargetNote(target) + " " + LangNote(lang)
  }

  /** Python's `s[1:]`. */
  function DropFirst(s: string): string
  {
    if |s| == 0 then "" else s[1..]
  }

  /** The online script's relay parse of `row[7]`: with a '/', the field is
      split on '-' and gives the country code (minus its first character)
      and the site; without one, the whole field is the site and the
      country code stays. */
  function ParseRelay(itu: string, field: string): (r: (string, string))
    ensures '/' !in field ==> r == (itu, field)
    ensures '/' in field ==> '-' !in r.1
  {
    if '/' in field then
      var stn := Split(field, '-');
      SplitPartsFree(field, '-');
      (DropFirst(stn[0]), if |stn| > 1 then stn[1] else "")
    else (itu, field)
  }

  /** A relay written "/CCC-s", possibly followed by further '-'-separated
      parts, names country CCC and site s, whatever the row's own country
      code: the parts after the second are dropped. */
  lemma RelayOfSite(itu: string, country: string, site: string, tail: string)
    requires '-' !in country && '-' !in site
    requires tail == "" || tail[0] == '-'
    ensures ParseRelay(itu, "/" + country + "-" + site + tail) == (country, site)
  {
    var field := "/" + country + "-" + site + tail;
    assert '/' == field[0];
    var head := "/" + country;
    assert field == head + ([('-')] + (site + tail));
    SplitPrefix(head, ['-'] + (site + tail), '-');
    var after := ['-'] + (site + tail);
    assert after[1..] == site + tail;
    assert Split(after, '-') == [""] + Split(site + tail, '-');
    SplitPrefix(site, tail, '-');
    TailFirstPart(tail);
    assert site + "" == site;
    assert head + "" == head;
    assert head[1..] == country;
  }

  /** A tail that is empty or starts with the separator contributes an
      empty first part. */
  lemma TailFirstPart(tail: string)
    requires tail == "" || tail[0] == '-'
    ensures Split(tail, '-')[0] == ""
  {
  }

  /** A slash without a hyphen: the field minus its first character is the
      country code and the site is empty. */
  lemma RelayWithoutHyphen(itu: string, field: string)
    requires '/' in field && '-' !in field
    ensures ParseRelay(itu, field) == (DropFirst(field), "")
  {
    SplitJoin([field], '-');
  }

  /** `location_dict.get(itu, {}).get(txsite)` */
  function LongName(sites: map<string, map<string, string>>, itu: string, site: string): (r: Option<string>)
    ensures r.Some? <==> itu in sites && site in sites[itu]
    ensures r.Some? ==> r.value == sites[itu][site]
  {
    if itu in sites && site in sites[itu] then Some(sites[itu][site]) else None
  }

  /** The online script's notes before trimming. */
  function NotesOnline(itu: string, longName: Option<string>, target: string, lang: string): string
  {
    match longName
    case Some(name) => itu + " " + Strip(name) + ". " + TargetNote(target) + " " + LangNote(lang)
    case None => itu + ". " + TargetNote(target) + " " + LangNote(lang)
  }

  /** Trimming only touches the ends: with a country code that does not start
      with whitespace and a language, the notes are written untouched, empty
      target and all (two spaces after the full stop). */
  lemma NotesKeepInterior(itu: string, rem: string, target: string, lang: string)
    requires |itu| > 0 && !IsSpace(itu[0]) && Strip(lang) != ""
    ensures Strip(NotesStandalone(itu, rem, target, lang)) == NotesStandalone(itu, rem, target, lang)
  {
    var n := NotesStandalone(itu, rem, target, lang);
    var l := Strip(lang);
    assert n[0] == itu[0];
    assert n[|n| - 1] == l[|l| - 1];
    StripNoop(n);
  }

  /** A word: nonempty, with no whitespace at either end. */
  predicate Word(w: string) {
    |w| > 0 && !IsSpace(w[0]) && !IsSpace(w[|w| - 1])
  }

  /** A language that is a word is written after "Lang: ". */
  lemma LangOfWord(lang: string)
    requires Word(lang)
    ensures LangNote(lang) == "Lang: " + lang
  {
    StripNoop(lang);
  }

  /** A target that is a word is written between "Target: " and a period. */
  lemma TargetOfWord(target: string)
    requires Word(target)
    ensures TargetNote(target) == "Target: " + target + "."
  {
    StripNoop(target);
  }

  /** With no remarks and no target, the notes keep the two spaces that
      surround the empty target note, and trimming leaves them alone. */
  lemma NotesLanguageOnly(itu: string, lang: string)
    requires Word(itu) && Word(lang)
    ensures NotesStandalone(itu, "", "", lang) == itu + ". " + " " + ("Lang: " + lang)
    ensures Strip(NotesStandalone(itu, "", "", lang)) == NotesStandalone(itu, "", "", lang)
  {
    LangOfWord(lang);
    var n := NotesStandalone(itu, "", "", lang);
    assert n[0] == itu[0];
    assert n[|n| - 1] == lang[|lang| - 1];
    StripNoop(n);
  }

  /** With a long name, the online notes name the site between the country
      code and the target. */
  lemma NotesWithSite(itu: string, name: string, target: string, lang: string)
    requires Word(name) && Word(target) && Word(lang)
    ensures NotesOnline(itu, Some(name), target, lang)
      == itu + " " + name + ". " + ("Target: " + target + ".") + " " + ("Lang: " + lang)
  {
    StripNoop(name);
    TargetOfWord(target);
    LangOfWord(lang);
  }

  /** An empty target leaves two spaces inside the notes. */
  lemma NotesExample(itu: string, lang: string)
    requires itu == "D" && lang == "E"
    ensures Strip(NotesStandalone(itu, "", "", lang)) == "D.  Lang: E"
  {
    NotesLanguageOnly(itu, lang);
  }

  /** A site found in the table is written by its long name. */
  lemma SiteNotesExample(itu: string, name: string, target: string, lang: string)
    requires itu == "D" && name == "Nauen" && target == "Eu" && lang == "E"
    ensures NotesOnline(itu, Some(name), target, lang) == "D Nauen. Target: Eu. Lang: E"
  {
    NotesWithSite(itu, name, target, lang);
    SiteText();
  }

  lemma SiteText()
    ensures "D" + " " + "Nauen" + ". " + ("Target: " + "Eu" + ".") + " " + ("Lang: " + "E") == "D Nauen. Target: Eu. Lang: E"
  {
  }

  // ------------------------------------------------------------ records

  /** The day field as written: empty, or the letters in double quotes. */
  function DowField(letters: string): (r: string)
    ensures letters == "" ==> r == ""
    ensures letters != "" ==> |r| == |letters| + 2 && r[0] == '"' && r[|r| - 1] == '"' && r[1..|r| - 1] == letters
  {
    if letters == "" then "" else "\"" + letters + "\""
  }

  function Quoted(s: string): string
  {
    "\"" + s + "\""
  }

  /** The twelve columns of an output line; `freq` is the script's `str(khz)`. */
  function Columns(r: OutputRecord, freq: string): (c: seq<string>)
    ensures |c| == 12 && c[0] == freq && c[9] == r.dow && c[10] == r.begin && c[11] == r.end
  {
    [freq, Quoted("QAM"), Quoted(r.ident), Quoted(r.notes), "", Quoted(r.tag), "", "", "", r.dow, r.begin, r.end]
  }

  /** The notes of a row in the given script. */
  function RowNotes(row: seq<string>, v: Variant, sites: map<string, map<string, string>>): string
    requires |row| >= 8
  {
    match v
    case Standalone => NotesStandalone(row[3], row[7], row[6], row[5])
    case Online =>
      var (itu, site) := ParseRelay(row[3], row[7]);
      NotesOnline(itu, LongName(sites, itu, site), row[6], row[5])
  }

  /** The record built from a row whose head and day field converted. */
  function Describe(row: seq<string>, v: Variant, sites: map<string, map<string, string>>,
                    head: (real, string, string), letters: string): OutputRecord
    requires |row| >= 8
  {
    OutputRecord(head.0, row[4], Strip(RowNotes(row, v, sites)), TypeTag(row[5]), DowField(letters), head.1, head.2)
  }

  /** The fields a script reads from every row. */
  function Width(v: Variant): nat
  {
    if v == Online then 11 else 8
  }

  /** A "one-day" row: fields 9 and 10 equal and nonempty. */
  predicate OneDay(row: seq<string>)
    requires |row| >= 11
  {
    row[9] == row[10] && row[9] != ""
  }

  /** One data row: the record, or None for a row the online script drops.
      Fields are read in the scripts' order, so a short row fails at the first
      index it lacks: frequency and times, the day field, fields 3 to 7, and
      online fields 9 and 10 last. */
  function ConvertRow(row: seq<string>, v: Variant, sites: map<string, map<string, string>>): (r: Result<Option<OutputRecord>, RowError>)
    ensures r.Success? ==> |row| >= Width(v)
    ensures r.Success? && r.value.None? ==> v == Online
  {
    if RowHead(row).Failure? then Failure(RowHead(row).error)
    else if |row| < 3 then Failure(MissingField(2))
    else if DayLetters(row[2], v).Failure? then Failure(BadDay(DayLetters(row[2], v).error))
    else if |row| < 8 then Failure(MissingField(|row|))
    else
      var record := Describe(row, v, sites, RowHead(row).value, DayLetters(row[2], v).value);
      if v == Standalone then Success(Some(record))
      else if |row| < 11 then Failure(MissingField(if |row| < 10 then 9 else 10))
      else if OneDay(row) then Success(None)
      else Success(Some(record))
  }

  function Kept(r: Option<OutputRecord>): seq<OutputRecord>
  {
    match r
    case Some(rec) => [rec]
    case None => []
  }

  /** A row converter of one script. */
  type Converter = seq<string> -> Result<Option<OutputRecord>, RowError>

  function ConverterOf(v: Variant, sites: map<string, map<string, string>>): Converter
  {
    row => ConvertRow(row, v, sites)
  }

  /** The row loop: rows convert in order; the first failing row stops the run
      and is named by its position. */
  function ConvertRows(rows: seq<seq<string>>, convert: Converter): (r: Result<seq<OutputRecord>, RunError>)
    ensures r.Success? ==> |r.value| <= |rows|
  {
    if |rows| == 0 then Success([])
    else
      var done :- ConvertRows(rows[..|rows| - 1], convert);
      var last := convert(rows[|rows| - 1]);
      if last.Failure? then Failure(AtRecord(|rows| - 1, last.error))
      else Success(done + Kept(last.value))
  }

  /** A whole run: the first line is the header; the online script sorts by
      frequency (`float(str(khz))` is `khz`). */
  function Run(rows: seq<seq<string>>, v: Variant, sites: map<string, map<string, string>>): (r: Result<seq<OutputRecord>, RunError>)
    ensures |rows| == 0 ==> r == Failure(MissingHeader)
  {
    if |rows| == 0 then Failure(MissingHeader)
    else
      var records :- ConvertRows(rows[1..], ConverterOf(v, sites));
      Success(if v == Online then SortByKey(records, Khz) else records)
  }

  // --------------------------------------------------------- row properties

  /** A row converts exactly when it is wide enough and its head and day
      field convert; only the online script drops a row, and only a one-day
      row; a kept row's record is built from that row's fields alone. */
  lemma ConvertRowSpec(row: seq<string>, v: Variant, sites: map<string, map<string, string>>)
    ensures var r := ConvertRow(row, v, sites);
      (r.Success? <==> |row| >= Width(v) && RowHead(row).Success? && DayLetters(row[2], v).Success?)
      && (r.Success? ==> (r.value.None? <==> v == Online && OneDay(row)))
      && (r.Success? && r.value.Some? ==>
            r.value.value == Describe(row, v, sites, RowHead(row).value, DayLetters(row[2], v).value))
  {
    var r := ConvertRow(row, v, sites);
    var head := RowHead(row);
    if head.Failure? {
      assert r.Failure?;
    } else if |row| < 3 {
      assert r.Failure?;
    } else if DayLetters(row[2], v).Failure? {
      assert r.Failure?;
    } else if |row| < 8 {
      assert r.Failure?;
    } else {
      var record := Describe(row, v, sites, head.value, DayLetters(row[2], v).value);
      if v == Standalone {
        assert r == Success(Some(record));
      } else if |row| < 11 {
        assert r.Failure?;
      } else {
        assert r == if OneDay(row) then Success(None) else Success(Some(record));
      }
    }
  }

  /** The same, in terms of the raw fields: a number for a frequency and one
      hyphen in the times. */
  lemma ConvertRowSucceeds(row: seq<string>, v: Variant, sites: map<string, map<string, string>>)
    ensures ConvertRow(row, v, sites).Success? <==>
      |row| >= Width(v)
      && ParseDecimal(row[0]).Some? && Count(row[1], '-') == 1 && DayLetters(row[2], v).Success?
  {
    ConvertRowSpec(row, v, sites);
  }

  /** What a converted row's record holds, field by field. */
  lemma RecordFields(row: seq<string>, v: Variant, sites: map<string, map<string, string>>)
    requires ConvertRow(row, v, sites).Success? && ConvertRow(row, v, sites).value.Some?
    ensures var rec := ConvertRow(row, v, sites).value.value;
      var times := Split(row[1], '-');
      |times| == 2
      && rec.khz == ParseDecimal(row[0]).value
      && rec.begin == ClampBegin(times[0]) && rec.end == ClampEnd(times[1])
      && rec.dow == DowField(DayLetters(row[2], v).value)
      && rec.ident == row[4]
      && rec.tag == TypeTag(row[5])
      && rec.notes == Strip(RowNotes(row, v, sites))
  {
    ConvertRowSpec(row, v, sites);
    SplitLength(row[1], '-');
  }

  /** The written day field is empty exactly when the day field matches no
      branch, and otherwise seven day letters in double quotes. */
  lemma DowFieldShape(day: string, v: Variant)
    requires DayLetters(day, v).Success?
    ensures var d := DowField(DayLetters(day, v).value);
      (d == "" <==> Classify(day, v) == NoMatch)
      && (d != "" ==>
            |d| == 9 && d[0] == '"' && d[8] == '"'
            && forall i :: 1 <= i < 8 ==> d[i] == '_' || d[i] == DayInitials[i - 1])
  {
    var l := DayLetters(day, v).value;
    var d := DowField(l);
    if l != "" {
      assert forall i :: 1 <= i < 8 ==> d[i] == l[i - 1];
    }
  }

  /** A written record's day field depends on that row's day field only. */
  lemma DayFieldShape(row: seq<string>, v: Variant, sites: map<string, map<string, string>>)
    requires ConvertRow(row, v, sites).Success? && ConvertRow(row, v, sites).value.Some?
    ensures ConvertRow(row, v, sites).value.value.dow == DowField(DayLetters(row[2], v).value)
    ensures var d := ConvertRow(row, v, sites).value.value.dow;
      (d == "" <==> Classify(row[2], v) == NoMatch)
      && (d != "" ==> |d| == 9 && d[0] == '"' && d[8] == '"')
  {
    ConvertRowSpec(row, v, sites);
    DowFieldShape(row[2], v);
  }

  /** Only the online script drops rows: those whose fields 9 and 10 are
      equal and nonempty. */
  lemma OneDayFilter(row: seq<string>, v: Variant, sites: map<string, map<string, string>>)
    requires ConvertRow(row, v, sites).Success?
    ensures ConvertRow(row, v, sites).value.None? <==> v == Online && row[9] == row[10] && row[9] != ""
  {
    ConvertRowSpec(row, v, sites);
  }

  // --------------------------------------------------------- run properties

  /** Once a prefix of the rows fails, the run fails with the same error. */
  lemma {:induction false} PrefixFailure(rows: seq<seq<string>>, n: nat, convert: Converter)
    requires n <= |rows| && ConvertRows(rows[..n], convert).Failure?
    ensures ConvertRows(rows, convert) == ConvertRows(rows[..n], convert)
    decreases |rows| - n
  {
    if n < |rows| {
      var longer := rows[..n + 1];
      assert longer[..n] == rows[..n];
      PrefixFailure(rows, n + 1, convert);
    } else {
      assert rows[..n] == rows;
    }
  }

  /** One more row: the run so far extended by that row's record, or that
      row's failure, which is then the failure of the whole run. */
  lemma ExtendRun(rows: seq<seq<string>>, i: nat, convert: Converter, records: seq<OutputRecord>)
    requires 0 <= i < |rows| && ConvertRows(rows[..i], convert) == Success(records)
    ensures convert(rows[i]).Success? ==>
      ConvertRows(rows[..i + 1], convert) == Success(records + Kept(convert(rows[i]).value))
    ensures convert(rows[i]).Failure? ==>
      ConvertRows(rows, convert) == Failure(AtRecord(i, convert(rows[i]).error))
  {
    assert rows[..i + 1][..i] == rows[..i];
    if convert(rows[i]).Failure? {
      PrefixFailure(rows, i + 1, convert);
    }
  }

  /** A run succeeds exactly when every row converts, and otherwise fails at
      the first row that fails. */
  lemma {:induction false} ConvertRowsSpec(rows: seq<seq<string>>, convert: Converter)
    ensures ConvertRows(rows, convert).Success? <==>
      forall i :: 0 <= i < |rows| ==> convert(rows[i]).Success?
    ensures ConvertRows(rows, convert).Failure? ==>
      var e := ConvertRows(rows, convert).error;
      e.AtRecord? && e.index < |rows|
      && convert(rows[e.index]) == Failure(e.reason)
      && forall i :: 0 <= i < e.index ==> convert(rows[i]).Success?
  {
    if |rows| > 0 {
      var init := rows[..|rows| - 1];
      ConvertRowsSpec(init, convert);
      assert forall i :: 0 <= i < |init| ==> init[i] == rows[i];
    }
  }

  /** With a converter that drops nothing, every row gives one record, in
      input order. */
  lemma {:induction false} KeepsOrder(rows: seq<seq<string>>, convert: Converter)
    requires forall row :: convert(row).Success? ==> convert(row).value.Some?
    requires ConvertRows(rows, convert).Success?
    ensures var out := ConvertRows(rows, convert).value;
      |out| == |rows| && forall i :: 0 <= i < |rows| ==> convert(rows[i]) == Success(Some(out[i]))
  {
    if |rows| > 0 {
      var init := rows[..|rows| - 1];
      KeepsOrder(init, convert);
      assert forall i :: 0 <= i < |init| ==> init[i] == rows[i];
    }
  }

  /** The standalone script writes one record per data row, in input order. */
  lemma StandaloneKeepsOrder(rows: seq<seq<string>>, sites: map<string, map<string, string>>)
    requires Run(rows, Standalone, sites).Success?
    ensures var out := Run(rows, Standalone, sites).value;
      |out| == |rows| - 1
      && forall i :: 1 <= i < |rows| ==> ConvertRow(rows[i], Standalone, sites) == Success(Some(out[i - 1]))
  {
    var convert := ConverterOf(Standalone, sites);
    forall row | convert(row).Success?
      ensures convert(row).value.Some?
    {
      ConvertRowSpec(row, Standalone, sites);
    }
    KeepsOrder(rows[1..], convert);
  }

  /** The online script's output is the kept records sorted by frequency,
      stably: a permutation, ascending, with equal frequencies in input order. */
  lemma OnlineSorted(rows: seq<seq<string>>, sites: map<string, map<string, string>>)
    requires Run(rows, Online, sites).Success?
    ensures var out := Run(rows, Online, sites).value;
      var kept := ConvertRows(rows[1..], ConverterOf(Online, sites)).value;
      Sorted(out, Khz) && multiset(out) == multiset(kept) && SameGroups(out, kept, Khz)
      && |out| <= |rows| - 1
  {
    SortByKeyCorrect(ConvertRows(rows[1..], ConverterOf(Online, sites)).value, Khz);
  }

  // ---------------------------------------------- the standalone script loop

  /** One pass of the standalone loop body, given the `DOW` value left by the
      previous row: the variable is only assigned by a matching day branch, so
      a row matching none writes whatever it held; it is cleared at the end. */
  method StandaloneRow(row: seq<string>, dow: string) returns (r: Result<Option<OutputRecord>, RowError>, after: string)
    ensures after == ""
    ensures dow == "" ==> r == ConvertRow(row, Standalone, map[])
    ensures r.Success? ==>
      |row| >= 8 && r.value.Some?
      && (Classify(row[2], Standalone) == NoMatch ==> r.value.value.dow == DowField(dow))
  {
    ConvertRowSpec(row, Standalone, map[]);
    after := "";
    var head := RowHead(row);
    if head.Failure? {
      return Failure(head.error), after;
    }
    if |row| < 3 {
      return Failure(MissingField(2)), after;
    }
    var day := row[2];
    var current := dow;
    if Classify(day, Standalone) != NoMatch {
      var letters := DayLetters(day, Standalone);
      if letters.Failure? {
        return Failure(BadDay(letters.error)), after;
      }
      current := letters.value;
    }
    if |row| < 8 {
      return Failure(MissingField(|row|)), after;
    }
    var notes := Strip(NotesStandalone(row[3], row[7], row[6], row[5]));
    var field := if current == "" then "" else "\"" + current + "\"";
    r := Success(Some(OutputRecord(head.value.0, row[4], notes, TypeTag(row[5]), field, head.value.1, head.value.2)));
  }

  /** The standalone script as written, with `DOW` living across rows. It
      starts empty and is cleared after every row, so a row whose day field
      matches no branch writes an empty day field, never the previous row's:
      the run equals the row-by-row conversion. */
  method StandaloneScript(rows: seq<seq<string>>) returns (out: Result<seq<OutputRecord>, RunError>)
    ensures out == Run(rows, Standalone, map[])
  {
    if |rows| == 0 {
      return Failure(MissingHeader);
    }
    var convert := ConverterOf(Standalone, map[]);
    var data := rows[1..];
    var records: seq<OutputRecord> := [];
    var dow := "";
    var i := 0;
    while i < |data|
      invariant 0 <= i <= |data|
      invariant dow == ""
      invariant ConvertRows(data[..i], convert) == Success(records)
    {
      var r;
      r, dow := StandaloneRow(data[i], dow);
      assert r == convert(data[i]);
      ExtendRun(data, i, convert, records);
      if r.Failure? {
        return Failure(AtRecord(i, r.error));
      }
      records := records + Kept(r.value);
      i := i + 1;
    }
    assert data[..i] == data;
    return Success(records);
  }
}
