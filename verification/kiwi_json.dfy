/** The JSON stage: each data row of the kiwiSDR CSV file becomes the entry
    `[frequency, band, station, details, metadata]`, with the station name and
    details percent-encoded. The metadata always holds "T3": 1. It holds the
    offsets "b0"/"e0" from the time columns, and "d0" with the day-of-week
    letters read as a bit pattern. */
module KiwiJson {
  import opened Wrappers
  import opened Text
  import opened Numerals
  import opened Binary
  import opened Weekdays
  import opened DayCodec
  import opened PercentEncoding

  // ------------------------------------------------------ day_schedule_to_int

  /** `"1" if schedule[i] != "_" else "0"` at every position. */
  function ScheduleBits(schedule: string): (b: seq<bool>)
    ensures |b| == |schedule| && forall i :: 0 <= i < |schedule| ==> b[i] == (schedule[i] != '_')
  {
    seq(|schedule|, i requires 0 <= i < |schedule| => schedule[i] != '_')
  }

  /** `day_schedule_to_int`: None where `int("", 2)` raises. */
  function DayScheduleToInt(schedule: string): (r: Option<nat>)
    ensures r.None? <==> schedule == ""
    ensures r.Some? ==> r.value < Pow2(|schedule|)
  {
    if schedule == "" then None
    else
      ValueBound(ScheduleBits(schedule));
      Some(Value(ScheduleBits(schedule)))
  }

  /** Position `i` of the schedule is bit `|schedule| - 1 - i` of the
      result: the first letter (Monday) is the most significant bit. */
  lemma ScheduleBit(schedule: string, i: nat)
    requires i < |schedule|
    ensures DayScheduleToInt(schedule).Some?
    ensures (DayScheduleToInt(schedule).value / Pow2(|schedule| - 1 - i)) % 2
      == (if schedule[i] != '_' then 1 else 0)
  {
    BitAt(ScheduleBits(schedule), i);
  }

  /** Only the positions of the underscores matter: two schedules of one
      length give the same number exactly when their underscores coincide. */
  lemma ScheduleInjective(a: string, b: string)
    requires |a| == |b|
    ensures DayScheduleToInt(a) == DayScheduleToInt(b)
      <==> forall i :: 0 <= i < |a| ==> (a[i] == '_' <==> b[i] == '_')
  {
    if DayScheduleToInt(a) == DayScheduleToInt(b) && |a| > 0 {
      ValueInjective(ScheduleBits(a), ScheduleBits(b));
      forall i | 0 <= i < |a|
        ensures a[i] == '_' <==> b[i] == '_'
      {
        assert ScheduleBits(a)[i] == ScheduleBits(b)[i];
      }
    }
    if forall i :: 0 <= i < |a| ==> (a[i] == '_' <==> b[i] == '_') {
      assert ScheduleBits(a) == ScheduleBits(b);
    }
  }

  /** The letters the other stages write for a 0/1 string read back as that
      string's number: `binstring_to_dowstring` followed by
      `day_schedule_to_int` is `binstring_to_decimal`. */
  lemma LettersReadBack(s: string)
    requires IsBinary(s) && |s| == 7
    ensures BinstringToDowstring(s).Success?
    ensures DayScheduleToInt(BinstringToDowstring(s).value) == Some(BinstringToDecimal(s).n)
  {
    var letters := BinstringToDowstring(s).value;
    forall i | 0 <= i < 7
      ensures ScheduleBits(letters)[i] == BitsOf(s)[i]
    {
      assert DayInitials[i] != '_';
    }
    assert ScheduleBits(letters) == BitsOf(s);
  }

  lemma ValueSnoc(a: seq<bool>, x: bool)
    ensures Value(a + [x]) == 2 * Value(a) + Bit(x)
  {
    assert (a + [x])[..|a|] == a;
  }

  /** One Horner step from a known prefix value. */
  lemma HornerStep(a: seq<bool>, x: bool, v: nat)
    requires Value(a) == v
    ensures Value(a + [x]) == 2 * v + Bit(x)
  {
    ValueSnoc(a, x);
  }

  lemma Value92()
    ensures Value([true, false, true, true, true, false, false]) == 92
  {
    var s0: seq<bool> := [];
    HornerStep(s0, true, 0);
    var s1 := s0 + [true];
    HornerStep(s1, false, 1);
    var s2 := s1 + [false];
    HornerStep(s2, true, 2);
    var s3 := s2 + [true];
    HornerStep(s3, true, 5);
    var s4 := s3 + [true];
    HornerStep(s4, true, 11);
    var s5 := s4 + [true];
    HornerStep(s5, false, 23);
    var s6 := s5 + [false];
    HornerStep(s6, false, 46);
    assert s6 + [false] == [true, false, true, true, true, false, false];
  }

  lemma Value127()
    ensures Value([true, true, true, true, true, true, true]) == 127
  {
    var s0: seq<bool> := [];
    HornerStep(s0, true, 0);
    var s1 := s0 + [true];
    HornerStep(s1, true, 1);
    var s2 := s1 + [true];
    HornerStep(s2, true, 3);
    var s3 := s2 + [true];
    HornerStep(s3, true, 7);
    var s4 := s3 + [true];
    HornerStep(s4, true, 15);
    var s5 := s4 + [true];
    HornerStep(s5, true, 31);
    var s6 := s5 + [true];
    HornerStep(s6, true, 63);
    assert s6 + [true] == [true, true, true, true, true, true, true];
  }

  lemma {:induction false} ValueZero(bits: seq<bool>)
    requires forall i :: 0 <= i < |bits| ==> !bits[i]
    ensures Value(bits) == 0
  {
    if |bits| > 0 {
      ValueZero(bits[..|bits| - 1]);
    }
  }

  /** Weekday patterns: Monday counts 64, Sunday 1. */
  lemma ScheduleExamples()
    ensures DayScheduleToInt("M_WTF__") == Some(92)
    ensures DayScheduleToInt("MTWTFSS") == Some(127)
    ensures DayScheduleToInt("_______") == Some(0)
  {
    assert ScheduleBits("M_WTF__") == [true, false, true, true, true, false, false];
    Value92();
    assert ScheduleBits("MTWTFSS") == [true, true, true, true, true, true, true];
    Value127();
    assert ScheduleBits("_______") == [false, false, false, false, false, false, false];
    ValueZero([false, false, false, false, false, false, false]);
  }

  // ------------------------------------------------------------- one row

  datatype JsonError =
    | BadFrequency(text: string)  // float(row[0]) raises ValueError
    | MissingField(index: nat)    // row[index] raises IndexError
    | BadOffset(text: string)     // int(...) of a time column raises ValueError

  /** The metadata object; "T3": 1 is always present and first, and the keys
      that are present follow in the order b0, e0, d0. */
  datatype Metadata = Metadata(t3: int, b0: Option<int>, e0: Option<int>, d0: Option<nat>)

  datatype Entry = Entry(frequency: real, band: string, stationName: string, details: string, metadata: Metadata)

  /** `int(field.replace("'", "").strip())`; `int` strips whitespace itself. */
  function Offset(field: string): (r: Result<int, JsonError>)
    ensures r.Success? <==> ParseInt(RemoveChar(field, '\'')).Some?
    ensures r.Success? ==> r.value == ParseInt(RemoveChar(field, '\'')).value
    ensures r.Failure? ==> r.error == BadOffset(field)
  {
    match ParseInt(RemoveChar(field, '\''))
    case Some(n) => Success(n)
    case None => Failure(BadOffset(field))
  }

  /** The body of the loop of `csv_to_json` for a non-empty row, failing
      where the script raises, in the script's order of evaluation. */
  function ConvertRow(row: seq<string>): (r: Result<Entry, JsonError>)
    requires |row| > 0
    ensures r.Success? ==> |row| >= 12 && r.value.metadata.t3 == 1
    ensures r.Success? ==> (r.value.metadata.b0.Some? <==> r.value.metadata.e0.Some?)
  {
    if ParseDecimal(row[0]).None? then Failure(BadFrequency(row[0]))
    else if |row| < 4 then Failure(MissingField(|row|))
    else if |row| < 11 then Failure(MissingField(10))
    else if !Blank(row[10]) && Offset(row[10]).Failure? then Failure(BadOffset(row[10]))
    else if |row| < 12 then Failure(MissingField(11))
    else if !Blank(row[11]) && Offset(row[11]).Failure? then Failure(BadOffset(row[11]))
    else
      var names := PercentEncode(StripQuotes(row[2]), StripQuotes(row[3]));
      var b0 := if !Blank(row[10]) then Some(Offset(row[10]).value) else if !Blank(row[11]) then Some(0) else None;
      var e0 := if !Blank(row[11]) then Some(Offset(row[11]).value) else if !Blank(row[10]) then Some(0) else None;
      var d0 := if !Blank(row[9]) then DayScheduleToInt(row[9]) else None;
      Success(Entry(ParseDecimal(row[0]).value, StripQuotes(row[1]), names.stationName, names.details,
                    Metadata(1, b0, e0, d0)))
  }

  /** A row converts exactly when its frequency parses, it has twelve
      columns and every non-blank time column is an integer. The offsets
      come in pairs: both present when either time column is filled. The
      day pattern is present exactly when column 9 is not blank. */
  lemma ConvertRowSpec(row: seq<string>)
    requires |row| > 0
    ensures ConvertRow(row).Success? <==>
      ParseDecimal(row[0]).Some? && |row| >= 12
      && (Blank(row[10]) || ParseInt(RemoveChar(row[10], '\'')).Some?)
      && (Blank(row[11]) || ParseInt(RemoveChar(row[11], '\'')).Some?)
    ensures ConvertRow(row).Success? ==>
      var e := ConvertRow(row).value;
      && e.frequency == ParseDecimal(row[0]).value
      && e.band == StripQuotes(row[1])
      && e.stationName == EncodeBytes(Utf8(StripQuotes(row[2])))
      && e.details == EncodeBytes(Utf8(StripQuotes(row[3])))
      && e.metadata.t3 == 1
      && (e.metadata.b0.Some? <==> !Blank(row[10]) || !Blank(row[11]))
      && (e.metadata.e0.Some? <==> e.metadata.b0.Some?)
      && (!Blank(row[10]) ==> e.metadata.b0 == ParseInt(RemoveChar(row[10], '\'')))
      && (Blank(row[10]) && !Blank(row[11]) ==> e.metadata.b0 == Some(0))
      && (!Blank(row[11]) ==> e.metadata.e0 == ParseInt(RemoveChar(row[11], '\'')))
      && (Blank(row[11]) && !Blank(row[10]) ==> e.metadata.e0 == Some(0))
      && (e.metadata.d0.Some? <==> !Blank(row[9]))
      && (!Blank(row[9]) ==> e.metadata.d0 == DayScheduleToInt(row[9]))
  {
  }

  /** The entry of a row with both time columns filled. */
  lemma ConvertTimedRow(row: seq<string>, freq: real, band: string, station: string, details: string,
                        begin: int, end: int, d0: Option<nat>)
    requires |row| >= 12 && ParseDecimal(row[0]) == Some(freq)
    requires StripQuotes(row[1]) == band && StripQuotes(row[2]) == station && StripQuotes(row[3]) == details
    requires !Blank(row[10]) && ParseInt(RemoveChar(row[10], '\'')) == Some(begin)
    requires !Blank(row[11]) && ParseInt(RemoveChar(row[11], '\'')) == Some(end)
    requires d0 == if Blank(row[9]) then None else DayScheduleToInt(row[9])
    ensures ConvertRow(row) == Success(Entry(freq, band, EncodeBytes(Utf8(station)), EncodeBytes(Utf8(details)),
                                             Metadata(1, Some(begin), Some(end), d0)))
  {
    ConvertRowSpec(row);
  }

  /** The first failure wins: the frequency, then the columns up to 3, then
      column 10 (its presence, then its number), then column 11 likewise. */
  lemma ConvertRowErrors(row: seq<string>)
    requires |row| > 0
    ensures ParseDecimal(row[0]).None? ==> ConvertRow(row) == Failure(BadFrequency(row[0]))
    ensures ParseDecimal(row[0]).Some? && |row| < 4 ==> ConvertRow(row) == Failure(MissingField(|row|))
    ensures ParseDecimal(row[0]).Some? && 4 <= |row| < 11 ==> ConvertRow(row) == Failure(MissingField(10))
    ensures ParseDecimal(row[0]).Some? && |row| >= 11 && !Blank(row[10])
      && ParseInt(RemoveChar(row[10], '\'')).None?
      ==> ConvertRow(row) == Failure(BadOffset(row[10]))
    ensures ParseDecimal(row[0]).Some? && |row| == 11
      && (Blank(row[10]) || ParseInt(RemoveChar(row[10], '\'')).Some?)
      ==> ConvertRow(row) == Failure(MissingField(11))
    ensures ParseDecimal(row[0]).Some? && |row| >= 12
      && (Blank(row[10]) || ParseInt(RemoveChar(row[10], '\'')).Some?)
      && !Blank(row[11]) && ParseInt(RemoveChar(row[11], '\'')).None?
      ==> ConvertRow(row) == Failure(BadOffset(row[11]))
  {
  }

  // ------------------------------------------------------------ whole file

  /** The rows `csv_to_json` converts: the non-empty ones. */
  function NonEmpty(rows: seq<seq<string>>): (r: seq<seq<string>>)
    ensures |r| <= |rows|
    ensures forall i :: 0 <= i < |r| ==> |r[i]| > 0
    ensures forall x :: x in r <==> x in rows && |x| > 0
  {
    if |rows| == 0 then []
    else (if |rows[0]| > 0 then [rows[0]] else []) + NonEmpty(rows[1..])
  }

  /** Filtering distributes over concatenation, so the kept rows keep their
      order and their repetitions. */
  lemma {:induction false} NonEmptyAppend(a: seq<seq<string>>, b: seq<seq<string>>)
    ensures NonEmpty(a + b) == NonEmpty(a) + NonEmpty(b)
    decreases |a|
  {
    if |a| == 0 {
      assert a + b == b;
    } else {
      var x, t := a[0], a[1..];
      assert a == [x] + t;
      assert a + b == [x] + (t + b);
      var keep := if |x| > 0 then [x] else [];
      calc {
        NonEmpty(a + b);
        { NonEmptyCons(x, t + b); }
        keep + NonEmpty(t + b);
        { NonEmptyAppend(t, b); }
        keep + (NonEmpty(t) + NonEmpty(b));
        (keep + NonEmpty(t)) + NonEmpty(b);
        { NonEmptyCons(x, t); }
        NonEmpty(a) + NonEmpty(b);
      }
    }
  }

  /** One row in front: kept when it has content, then the rest. */
  lemma NonEmptyCons(x: seq<string>, rest: seq<seq<string>>)
    ensures NonEmpty([x] + rest) == (if |x| > 0 then [x] else []) + NonEmpty(rest)
  {
    assert ([x] + rest)[0] == x;
    assert ([x] + rest)[1..] == rest;
  }

  /** A single row is kept exactly when it has content. */
  lemma NonEmptyOne(x: seq<string>)
    ensures NonEmpty([x]) == if |x| > 0 then [x] else []
  {
    assert [x][1..] == [];
  }

  /** A failing row, counted among the non-empty data rows. */
  datatype Failed = Failed(index: nat, reason: JsonError)

  /** The loop over the rows with `convert` as its body; `convert` is the
      row conversion, passed as a parameter so that properties of the loop
      hold whatever the body does. */
  function ConvertAll(rows: seq<seq<string>>, convert: seq<string> --> Result<Entry, JsonError>): Result<seq<Entry>, Failed>
    requires forall i :: 0 <= i < |rows| ==> convert.requires(rows[i])
  {
    if |rows| == 0 then Success([])
    else match convert(rows[0])
      case Failure(e) => Failure(Failed(0, e))
      case Success(entry) =>
        match ConvertAll(rows[1..], convert)
        case Failure(f) => Failure(Failed(f.index + 1, f.reason))
        case Success(entries) => Success([entry] + entries)
  }

  /** `csv_to_json` without the file I/O: the first row is the header, and
      a file without rows gives no entries. */
  function CsvToJson(rows: seq<seq<string>>): (r: Result<seq<Entry>, Failed>)
    ensures |rows| <= 1 ==> r == Success([])
  {
    if |rows| == 0 then Success([]) else ConvertAll(NonEmpty(rows[1..]), ConvertRow)
  }

  /** A run succeeds exactly when every row converts, and then yields their
      entries in input order. */
  lemma {:induction false} ConvertAllSucceeds(rows: seq<seq<string>>, convert: seq<string> --> Result<Entry, JsonError>)
    requires forall i :: 0 <= i < |rows| ==> convert.requires(rows[i])
    ensures ConvertAll(rows, convert).Success? <==> forall i :: 0 <= i < |rows| ==> convert(rows[i]).Success?
    ensures ConvertAll(rows, convert).Success? ==>
      |ConvertAll(rows, convert).value| == |rows|
      && forall i :: 0 <= i < |rows| ==> ConvertAll(rows, convert).value[i] == convert(rows[i]).value
  {
    if |rows| > 0 {
      var tail := rows[1..];
      ConvertAllSucceeds(tail, convert);
      assert forall i :: 1 <= i < |rows| ==> rows[i] == tail[i - 1];
    }
  }

  /** Rows that convert to given entries give exactly those entries. */
  lemma {:induction false} ConvertAllEach(rows: seq<seq<string>>, convert: seq<string> --> Result<Entry, JsonError>,
                                          entries: seq<Entry>)
    requires forall i :: 0 <= i < |rows| ==> convert.requires(rows[i])
    requires |entries| == |rows|
    requires forall i :: 0 <= i < |rows| ==> convert(rows[i]) == Success(entries[i])
    ensures ConvertAll(rows, convert) == Success(entries)
  {
    if |rows| > 0 {
      var tail := rows[1..];
      assert forall i :: 1 <= i < |rows| ==> rows[i] == tail[i - 1];
      ConvertAllEach(tail, convert, entries[1..]);
      assert entries == [entries[0]] + entries[1..];
    }
  }

  /** A failure names the first row that does not convert. */
  lemma {:induction false} ConvertAllFails(rows: seq<seq<string>>, convert: seq<string> --> Result<Entry, JsonError>)
    requires forall i :: 0 <= i < |rows| ==> convert.requires(rows[i])
    requires ConvertAll(rows, convert).Failure?
    ensures ConvertAll(rows, convert).error.index < |rows|
    ensures convert(rows[ConvertAll(rows, convert).error.index]) == Failure(ConvertAll(rows, convert).error.reason)
    ensures forall i :: 0 <= i < ConvertAll(rows, convert).error.index ==> convert(rows[i]).Success?
  {
    var tail := rows[1..];
    if convert(rows[0]).Success? {
      ConvertAllFails(tail, convert);
      assert forall i :: 1 <= i < |rows| ==> rows[i] == tail[i - 1];
    }
  }

  /** `csv_to_json` succeeds exactly when every non-empty row after the
      header converts, and then yields their entries in input order. */
  lemma CsvToJsonSucceeds(rows: seq<seq<string>>, data: seq<seq<string>>)
    requires |rows| > 0 && data == NonEmpty(rows[1..])
    ensures CsvToJson(rows).Success? <==> forall i :: 0 <= i < |data| ==> ConvertRow(data[i]).Success?
    ensures CsvToJson(rows).Success? ==>
      |CsvToJson(rows).value| == |data|
      && forall i :: 0 <= i < |data| ==> CsvToJson(rows).value[i] == ConvertRow(data[i]).value
  {
    ConvertAllSucceeds(data, ConvertRow);
  }

  /** A failing `csv_to_json` stops at the first non-empty row that does not
      convert. */
  lemma CsvToJsonFails(rows: seq<seq<string>>, data: seq<seq<string>>)
    requires |rows| > 0 && data == NonEmpty(rows[1..])
    requires CsvToJson(rows).Failure?
    ensures CsvToJson(rows).error.index < |data|
    ensures ConvertRow(data[CsvToJson(rows).error.index]) == Failure(CsvToJson(rows).error.reason)
    ensures forall i :: 0 <= i < CsvToJson(rows).error.index ==> ConvertRow(data[i]).Success?
  {
    ConvertAllFails(data, ConvertRow);
  }

  /** The same loop without the header skip: every non-empty line is a
      record, as in the files the CSV stages write. */
  function CsvToJsonHeaderless(rows: seq<seq<string>>): Result<seq<Entry>, Failed>
  {
    ConvertAll(NonEmpty(rows), ConvertRow)
  }

  /** Without the header skip, a file whose lines all convert yields one
      entry per non-empty line, in order. */
  lemma HeaderlessSucceeds(rows: seq<seq<string>>, data: seq<seq<string>>)
    requires data == NonEmpty(rows)
    ensures CsvToJsonHeaderless(rows).Success? <==> forall i :: 0 <= i < |data| ==> ConvertRow(data[i]).Success?
    ensures CsvToJsonHeaderless(rows).Success? ==>
      |CsvToJsonHeaderless(rows).value| == |data|
      && forall i :: 0 <= i < |data| ==> CsvToJsonHeaderless(rows).value[i] == ConvertRow(data[i]).value
  {
    ConvertAllSucceeds(data, ConvertRow);
  }

  /** Lines with content are all kept. */
  lemma {:induction false} NonEmptyAll(rows: seq<seq<string>>)
    requires forall i :: 0 <= i < |rows| ==> |rows[i]| > 0
    ensures NonEmpty(rows) == rows
  {
    if |rows| > 0 {
      NonEmptyAll(rows[1..]);
      assert rows == [rows[0]] + rows[1..];
    }
  }

  /** Without the header skip, lines that all have content and convert to
      given entries give exactly those entries. */
  lemma HeaderlessAll(rows: seq<seq<string>>, entries: seq<Entry>)
    requires |entries| == |rows|
    requires forall i :: 0 <= i < |rows| ==> |rows[i]| > 0 && ConvertRow(rows[i]) == Success(entries[i])
    ensures CsvToJsonHeaderless(rows) == Success(entries)
  {
    NonEmptyAll(rows);
    ConvertAllEach(rows, ConvertRow, entries);
  }

  /** The header skip loses a record: a file of one converting line, as the
      CSV stages write it, gives no entry, where the headerless loop gives
      that line's entry. */
  lemma FirstRecordLost(row: seq<string>, entry: Entry)
    requires |row| > 0 && ConvertRow(row) == Success(entry)
    ensures CsvToJson([row]) == Success([])
    ensures CsvToJsonHeaderless([row]) == Success([entry])
  {
    var rows, entries := [row], [entry];
    assert forall i :: 0 <= i < |rows| ==> rows[i] == row && entries[i] == entry;
    HeaderlessAll(rows, entries);
  }

  // -------------------------------------------------- reading the CSV back

  /** What `csv.reader` makes of a field written as `"text"`: the text. A
      field without quotes is read as it stands. */
  function Unquote(field: string): (r: string)
    ensures |r| <= |field|
  {
    if |field| >= 2 && field[0] == '"' && field[|field| - 1] == '"' then field[1..|field| - 1] else field
  }

  /** A line the reader splits at every ';' and unquotes field by field:
      the fields hold no ';' and no '"' except a quote at each end. */
  predicate Plain(field: string) {
    ';' !in field && (forall i :: 0 < i < |field| - 1 ==> field[i] != '"')
  }

  /** `csv.reader(..., delimiter=";")` on one line whose fields are plain. */
  function ReadLine(line: string): seq<string>
  {
    var fields := Split(line, ';');
    seq(|fields|, i requires 0 <= i < |fields| => Unquote(fields[i]))
  }

  /** A line written as the plain columns joined with ';' reads back as the
      unquoted columns. */
  lemma ReadWritten(columns: seq<string>)
    requires |columns| >= 1
    requires forall k :: 0 <= k < |columns| ==> Plain(columns[k])
    ensures ReadLine(Join(columns, ';')) == seq(|columns|, i requires 0 <= i < |columns| => Unquote(columns[i]))
  {
    SplitJoin(columns, ';');
  }

  /** The day column the earlier stages write for a set of days (the
      letters in quotes) gives "d0" equal to the 0/1 mask of those days. */
  lemma DayColumnReadBack(days: set<Weekday>)
    ensures Unquote("\"" + Render(days) + "\"") == Render(days)
    ensures DayScheduleToInt(Render(days)) == Some(BinstringToDecimal(MaskBits(days)).n)
  {
    var field := "\"" + Render(days) + "\"";
    assert field[1..|field| - 1] == Render(days);
    DowOfMask(days);
    LettersReadBack(MaskBits(days));
  }

  /** A time column written as four digits reads as its number. */
  lemma TimeColumn(t: string)
    requires |t| == 4 && IsDigits(t)
    ensures !Blank(t) && ParseInt(RemoveChar(t, '\'')) == Some(DigitsValue(t) as int)
    ensures Offset(t) == Success(DigitsValue(t) as int)
  {
    assert RemoveChar(t, '\'') == t;
    StripNoop(t);
  }
}
