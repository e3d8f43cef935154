/** The stages end to end: a record that either CSV script writes, once the
    JSON stage reads its line back, becomes the entry the record describes.
    Its day letters become the number `binstring_to_decimal` gives for the
    day field's bit string. */
module Pipeline {
  import opened Wrappers
  import opened Text
  import opened Numerals
  import opened Weekdays
  import opened DayCodec
  import opened PercentEncoding
  import Schedule
  import KiwiJson

  /** Text the line format carries unchanged: no delimiter and no quote. */
  predicate Clean(s: string) {
    ';' !in s && '"' !in s
  }

  lemma UnquoteQuoted(s: string)
    ensures KiwiJson.Unquote(Schedule.Quoted(s)) == s
  {
    var q := Schedule.Quoted(s);
    assert q[1..|q| - 1] == s;
  }

  /** `strip('"')` leaves text without quotes alone. */
  lemma StripQuotesClean(s: string)
    requires '"' !in s
    ensures StripQuotes(s) == s
  {
    assert TrimStart(s, c => c == '"') == s;
  }

  /** A day field's written letters, read back by the JSON stage, give the
      number of the bit string the day field converts to. */
  lemma DayFieldToD0(day: string, v: Variant)
    requires DayLetters(day, v).Success? && Classify(day, v) != NoMatch
    ensures DayBinstring(day, v).Success? && DayBinstring(day, v).value.Some?
    ensures var bits := DayBinstring(day, v).value.value;
      KiwiJson.DayScheduleToInt(KiwiJson.Unquote(Schedule.DowField(DayLetters(day, v).value)))
        == Some(BinstringToDecimal(bits).n)
  {
    var bits := DayBinstring(day, v).value.value;
    var letters := DayLetters(day, v).value;
    UnquoteQuoted(letters);
    KiwiJson.LettersReadBack(bits);
  }

  /** Clean text, bare or in quotes, is a plain field that reads back as
      the text. */
  lemma CleanField(s: string)
    requires Clean(s)
    ensures KiwiJson.Plain(s) && KiwiJson.Unquote(s) == s
    ensures KiwiJson.Plain(Schedule.Quoted(s)) && KiwiJson.Unquote(Schedule.Quoted(s)) == s
  {
    UnquoteQuoted(s);
    var q := Schedule.Quoted(s);
    assert forall i :: 0 < i < |q| - 1 ==> q[i] == s[i - 1];
  }

  /** The written day field: empty, or clean letters in quotes. */
  lemma DayField(dow: string)
    requires dow == "" || (|dow| == 9 && dow[0] == '"' && dow[8] == '"' && Clean(dow[1..8]))
    ensures KiwiJson.Plain(dow) && KiwiJson.Unquote(dow) == (if dow == "" then "" else dow[1..8])
  {
    if dow != "" {
      assert dow == Schedule.Quoted(dow[1..8]);
      CleanField(dow[1..8]);
    }
  }

  /** The band column and the empty columns. */
  lemma BandField()
    ensures KiwiJson.Plain(Schedule.Quoted("QAM")) && KiwiJson.Unquote(Schedule.Quoted("QAM")) == "QAM"
    ensures KiwiJson.Plain("")
  {
    CleanField("QAM");
  }

  /** Clean text fields make every column of the line plain. */
  lemma ColumnsPlain(r: Schedule.OutputRecord, freq: string)
    requires Clean(freq) && Clean(r.ident) && Clean(r.notes) && Clean(r.tag)
    requires Clean(r.begin) && Clean(r.end)
    requires r.dow == "" || (|r.dow| == 9 && r.dow[0] == '"' && r.dow[8] == '"' && Clean(r.dow[1..8]))
    ensures forall c | c in Schedule.Columns(r, freq) :: KiwiJson.Plain(c)
  {
    var cols := Schedule.Columns(r, freq);
    BandField();
    CleanField(freq);
    CleanField(r.ident);
    CleanField(r.notes);
    CleanField(r.tag);
    DayField(r.dow);
    CleanField(r.begin);
    CleanField(r.end);
  }

  /** The line the CSV stages write for a record, as the JSON stage reads it. */
  function LineOf(r: Schedule.OutputRecord, freq: string): seq<string>
  {
    KiwiJson.ReadLine(Join(Schedule.Columns(r, freq), ';'))
  }

  /** The columns of a record whose text fields are clean survive the line
      format. */
  lemma ReadColumns(r: Schedule.OutputRecord, freq: string)
    requires Clean(freq) && Clean(r.ident) && Clean(r.notes) && Clean(r.tag)
    requires Clean(r.begin) && Clean(r.end)
    requires r.dow == "" || (|r.dow| == 9 && r.dow[0] == '"' && r.dow[8] == '"' && Clean(r.dow[1..8]))
    ensures var row := LineOf(r, freq);
      && |row| == 12
      && row[0] == freq && row[1] == "QAM" && row[2] == r.ident && row[3] == r.notes
      && row[9] == (if r.dow == "" then "" else r.dow[1..8]) && row[10] == r.begin && row[11] == r.end
  {
    var cols := Schedule.Columns(r, freq);
    ColumnsPlain(r, freq);
    assert forall k :: 0 <= k < |cols| ==> KiwiJson.Plain(cols[k]) by {
      assert forall k :: 0 <= k < |cols| ==> cols[k] in cols;
    }
    KiwiJson.ReadWritten(cols);
    BandField();
    CleanField(freq);
    CleanField(r.ident);
    CleanField(r.notes);
    DayField(r.dow);
    CleanField(r.begin);
    CleanField(r.end);
  }

  /** A row read back from such a line converts into the record's entry. */
  lemma ConvertReadRow(row: seq<string>, freq: string, band: string, ident: string, notes: string,
                       days: string, begin: string, end: string)
    requires |row| == 12
    requires row[0] == freq && row[1] == band && row[2] == ident && row[3] == notes
    requires row[9] == days && row[10] == begin && row[11] == end
    requires '"' !in band && '"' !in ident && '"' !in notes
    requires ParseDecimal(freq).Some?
    requires |begin| == 4 && IsDigits(begin) && |end| == 4 && IsDigits(end)
    requires days == "" || !Blank(days)
    ensures KiwiJson.ConvertRow(row) == Success(KiwiJson.Entry(
      ParseDecimal(freq).value, band, EncodeBytes(Utf8(ident)), EncodeBytes(Utf8(notes)),
      KiwiJson.Metadata(1, Some(DigitsValue(begin)), Some(DigitsValue(end)),
                        if days == "" then None else KiwiJson.DayScheduleToInt(days))))
  {
    StripQuotesClean(band);
    StripQuotesClean(ident);
    StripQuotesClean(notes);
    KiwiJson.TimeColumn(begin);
    KiwiJson.TimeColumn(end);
    KiwiJson.ConvertTimedRow(row, ParseDecimal(freq).value, band, ident, notes, DigitsValue(begin), DigitsValue(end),
                             if days == "" then None else KiwiJson.DayScheduleToInt(days));
  }

  /** A record and frequency text the line format carries unchanged: clean
      text, four-digit times and the day field as the CSV stages write it. */
  predicate Writable(r: Schedule.OutputRecord, freq: string) {
    && Clean(freq) && Clean(r.ident) && Clean(r.notes) && Clean(r.tag)
    && ParseDecimal(freq).Some?
    && |r.begin| == 4 && IsDigits(r.begin) && |r.end| == 4 && IsDigits(r.end)
    && (r.dow == "" || (|r.dow| == 9 && r.dow[0] == '"' && r.dow[8] == '"' && Clean(r.dow[1..8])))
    && (r.dow != "" ==> !Blank(r.dow[1..8]))
  }

  /** The entry a written record stands for: the frequency, the band "QAM",
      the encoded ident and notes, both times as offsets, and the day number
      exactly when the record carries day letters. */
  function EntryOf(r: Schedule.OutputRecord, freq: string): KiwiJson.Entry
    requires Writable(r, freq)
  {
    KiwiJson.Entry(
      ParseDecimal(freq).value, "QAM", EncodeBytes(Utf8(r.ident)), EncodeBytes(Utf8(r.notes)),
      KiwiJson.Metadata(1, Some(DigitsValue(r.begin)), Some(DigitsValue(r.end)),
                        if r.dow == "" then None else KiwiJson.DayScheduleToInt(r.dow[1..8])))
  }

  /** A written line whose text fields are clean reads back as a row that
      the JSON stage converts into the record's entry. */
  lemma WrittenLine(r: Schedule.OutputRecord, freq: string)
    requires Clean(freq) && Clean(r.ident) && Clean(r.notes) && Clean(r.tag)
    requires ParseDecimal(freq).Some?
    requires |r.begin| == 4 && IsDigits(r.begin) && |r.end| == 4 && IsDigits(r.end)
    requires r.dow == "" || (|r.dow| == 9 && r.dow[0] == '"' && r.dow[8] == '"' && Clean(r.dow[1..8]))
    requires r.dow != "" ==> !Blank(r.dow[1..8])
    ensures var row := LineOf(r, freq);
      && |row| == 12
      && KiwiJson.ConvertRow(row) == Success(KiwiJson.Entry(
           ParseDecimal(freq).value, "QAM", EncodeBytes(Utf8(r.ident)), EncodeBytes(Utf8(r.notes)),
           KiwiJson.Metadata(1, Some(DigitsValue(r.begin)), Some(DigitsValue(r.end)),
                             if r.dow == "" then None else KiwiJson.DayScheduleToInt(r.dow[1..8]))))
  {
    assert Clean(r.begin) && Clean(r.end);
    ReadColumns(r, freq);
    var row := LineOf(r, freq);
    ConvertReadRow(row, freq, "QAM", r.ident, r.notes, if r.dow == "" then "" else r.dow[1..8], r.begin, r.end);
  }

  /** A whole written file, read without the header skip, converts into one
      entry per record, in the order the records were written. */
  lemma WrittenFile(rs: seq<Schedule.OutputRecord>, freqs: seq<string>)
    requires |rs| == |freqs|
    requires forall i :: 0 <= i < |rs| ==> Writable(rs[i], freqs[i])
    ensures var rows := seq(|rs|, i requires 0 <= i < |rs| => LineOf(rs[i], freqs[i]));
      KiwiJson.CsvToJsonHeaderless(rows)
        == Success(seq(|rs|, i requires 0 <= i < |rs| && Writable(rs[i], freqs[i]) => EntryOf(rs[i], freqs[i])))
  {
    var rows := seq(|rs|, i requires 0 <= i < |rs| => LineOf(rs[i], freqs[i]));
    var entries := seq(|rs|, i requires 0 <= i < |rs| && Writable(rs[i], freqs[i]) => EntryOf(rs[i], freqs[i]));
    forall i | 0 <= i < |rs|
      ensures |rows[i]| == 12 && KiwiJson.ConvertRow(rows[i]) == Success(entries[i])
    {
      WrittenLine(rs[i], freqs[i]);
    }
    KiwiJson.HeaderlessAll(rows, entries);
  }
}
