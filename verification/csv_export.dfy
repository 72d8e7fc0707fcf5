/** `convertToCSV` of `src/components/admin/AdminPanel.tsx` (lines 631-667): the
    header row is the first record's keys joined by commas, and every data field
    is wrapped in double quotes with inner quotes doubled, as section 2 of
    RFC 4180 prescribes. Values of the two phone columns that a spreadsheet
    would read as a formula get a leading apostrophe. A reader for the format
    is given alongside, and the serialiser is proved to round-trip through it. */
module CsvExport {
  import opened Common
  import opened Text

  /** One property of an exported object; `None` is `null` or `undefined`. */
  datatype Entry = Entry(key: string, value: Option<string>)

  /** An exported object, its properties in insertion order. */
  type Row = seq<Entry>

  /** `Object.keys(row)`. */
  function Keys(row: Row): (ks: seq<string>)
    ensures |ks| == |row|
    ensures forall i :: 0 <= i < |row| ==> ks[i] == row[i].key
  {
    seq(|row|, i requires 0 <= i < |row| => row[i].key)
  }

  /** `row[key]`: the property's value, `None` when the object lacks it. */
  function Lookup(row: Row, key: string): (v: Option<string>)
    ensures v.Some? ==> exists i :: 0 <= i < |row| && row[i].key == key && row[i].value == v
    ensures (forall i :: 0 <= i < |row| ==> row[i].key != key) ==> v.None?
    // the first entry with the key decides
    ensures forall i :: 0 <= i < |row| && row[i].key == key && (forall j :: 0 <= j < i ==> row[j].key != key) ==>
              v == row[i].value
  {
    if row == [] then None
    else if row[0].key == key then row[0].value
    else Lookup(row[1..], key)
  }

  /** `value == null ? '' : String(value)`. */
  function Stringify(v: Option<string>): string
  {
    if v.None? then "" else v.value
  }

  /** The columns whose values are guarded against formula interpretation. */
  const PhoneFields: seq<string> := ["WhatsApp", "Guardian WhatsApp"]

  /** A trimmed value a spreadsheet would read as a formula: its first character is
      `=`, `+`, `-`, `@` or a digit. */
  predicate FormulaStart(t: string)
  {
    |t| > 0 && (t[0] == '=' || t[0] == '+' || t[0] == '-' || t[0] == '@' || IsDigit(t[0]))
  }

  /** The formula guard: a non-empty phone-column value whose trimmed form starts a
      formula is prefixed with an apostrophe; everything else is kept verbatim. */
  function Guard(header: string, s: string): (r: string)
    ensures r == s || r == "'" + s
    ensures r != s <==> header in PhoneFields && FormulaStart(Trim(s))
    ensures header in PhoneFields ==> !FormulaStart(Trim(r))
  {
    if header in PhoneFields && s != "" && FormulaStart(Trim(s)) then
      TrimKeepsHead("'" + s);
      "'" + s
    else s
  }

  /** Trimming a string that starts with a non-space character keeps that character
      in front. */
  lemma TrimKeepsHead(x: string)
    requires |x| > 0 && !IsSpace(x[0])
    ensures |Trim(x)| > 0 && Trim(x)[0] == x[0]
  {
    assert TrimStart(x) == x;
    TrimEndKeepsHead(x);
  }

  lemma {:induction false} TrimEndKeepsHead(x: string)
    requires |x| > 0 && !IsSpace(x[0])
    ensures |TrimEnd(x)| > 0 && TrimEnd(x)[0] == x[0]
  {
    if IsSpace(x[|x| - 1]) {
      TrimEndKeepsHead(x[..|x| - 1]);
    }
  }

  /** `String(value).replace(/"/g, '""')`. */
  function EscapeQuotes(s: string): (r: string)
    ensures |r| >= |s|
  {
    if s == [] then ""
    else (if s[0] == '"' then "\"\"" else [s[0]]) + EscapeQuotes(s[1..])
  }

  /** `"${escapedValue}"`. */
  function QuoteField(s: string): string
  {
    "\"" + EscapeQuotes(s) + "\""
  }

  /** One data field as written. */
  function Cell(header: string, v: Option<string>): string
  {
    QuoteField(Guard(header, Stringify(v)))
  }

  /** `xs.join(sep)`. */
  function JoinWith(sep: char, xs: seq<string>): string
  {
    if |xs| == 0 then ""
    else if |xs| == 1 then xs[0]
    else xs[0] + [sep] + JoinWith(sep, xs[1..])
  }

  /** The values a data row holds after the guard, one per header. */
  function RowValues(headers: seq<string>, row: Row): (vs: seq<string>)
    ensures |vs| == |headers|
  {
    seq(|headers|, j requires 0 <= j < |headers| => Guard(headers[j], Stringify(Lookup(row, headers[j]))))
  }

  /** `headers.map(...)` for one data row: its quoted fields. */
  function RowCells(headers: seq<string>, row: Row): (cs: seq<string>)
    ensures |cs| == |headers|
  {
    seq(|headers|, j requires 0 <= j < |headers| => Cell(headers[j], Lookup(row, headers[j])))
  }

  /** The lines of the file: the header line, then one line per row. */
  function Lines(headers: seq<string>, data: seq<Row>): (ls: seq<string>)
    ensures |ls| == |data| + 1
  {
    [JoinWith(',', headers)] + seq(|data|, i requires 0 <= i < |data| => JoinWith(',', RowCells(headers, data[i])))
  }

  /** The table a reader should recover: the headers, then each row's guarded values. */
  function Table(headers: seq<string>, data: seq<Row>): (t: seq<seq<string>>)
    ensures |t| == |data| + 1
  {
    [headers] + seq(|data|, i requires 0 <= i < |data| => RowValues(headers, data[i]))
  }

  /** A header that can be written without quotes. */
  predicate PlainField(h: string)
  {
    forall k :: 0 <= k < |h| ==> h[k] != ',' && h[k] != '\n' && h[k] != '"'
  }

  /** `convertToCSV(data)`. With no rows, `Object.keys(data[0])` throws, which the
      export handler catches: that outcome is `None`. Given at least one header
      that needs no quoting, reading the text back yields the headers and every
      row's values, so embedded commas, quotes and line breaks never split a field. */
  function ConvertToCsv(data: seq<Row>): (r: Option<string>)
    ensures r.None? <==> data == []
    ensures r.Some? && |data[0]| > 0 && (forall k :: 0 <= k < |data[0]| ==> PlainField(data[0][k].key)) ==>
              ParseCsv(r.value) == Some(Table(Keys(data[0]), data))
  {
    if data == [] then None
    else
      var headers := Keys(data[0]);
      if |headers| > 0 && forall k :: 0 <= k < |headers| ==> PlainField(headers[k]) then
        CsvRoundTrip(headers, data);
        Some(JoinWith('\n', Lines(headers, data)))
      else
        Some(JoinWith('\n', Lines(headers, data)))
  }

  // ----- A reader for RFC 4180 text (line breaks written as a single `\n`) -----

  /** The rest after a field: nothing, or a comma or line break comes next. */
  predicate FieldEnd(t: string) { t == [] || t[0] == ',' || t[0] == '\n' }

  /** The rest after a record: nothing, or a line break comes next. */
  predicate LineEnd(t: string) { t == [] || t[0] == '\n' }

  /** The body of a quoted field after its opening quote: a doubled quote stands for
      one quote, a single quote closes the field. The value and the text after the
      closing quote. */
  function ParseQuotedBody(s: string): (r: Option<(string, string)>)
    ensures r.Some? ==> |r.value.1| < |s|
  {
    if s == [] then None
    else if s[0] == '"' then
      if |s| >= 2 && s[1] == '"' then
        match ParseQuotedBody(s[2..]) {
          case None => None
          case Some(p) => Some(("\"" + p.0, p.1))
        }
      else Some(("", s[1..]))
    else
      match ParseQuotedBody(s[1..]) {
        case None => None
        case Some(p) => Some(([s[0]] + p.0, p.1))
      }
  }

  /** The length of the run of characters that may appear in an unquoted field. */
  function UnquotedLength(s: string): (n: nat)
    ensures n <= |s|
    ensures n < |s| ==> s[n] == ',' || s[n] == '\n' || s[n] == '"'
  {
    if s == [] || s[0] == ',' || s[0] == '\n' || s[0] == '"' then 0 else 1 + UnquotedLength(s[1..])
  }

  /** One field, quoted or not: its value and the rest, which starts at the next
      separator. A quote inside an unquoted field, or text after a closing quote,
      is malformed. */
  function ParseField(s: string): (r: Option<(string, string)>)
    ensures r.Some? ==> |r.value.1| <= |s| && FieldEnd(r.value.1)
  {
    if s != [] && s[0] == '"' then
      match ParseQuotedBody(s[1..]) {
        case None => None
        case Some(p) => if FieldEnd(p.1) then Some(p) else None
      }
    else
      var n := UnquotedLength(s);
      if n < |s| && s[n] == '"' then None else Some((s[..n], s[n..]))
  }

  /** The comma-separated fields of one record and the rest of the text. */
  function ParseRecord(s: string): (r: Option<(seq<string>, string)>)
    ensures r.Some? ==> |r.value.1| <= |s| && LineEnd(r.value.1) && |r.value.0| >= 1
    decreases |s|
  {
    match ParseField(s) {
      case None => None
      case Some(f) =>
        if f.1 != [] && f.1[0] == ',' then
          match ParseRecord(f.1[1..]) {
            case None => None
            case Some(rec) => Some(([f.0] + rec.0, rec.1))
          }
        else Some(([f.0], f.1))
    }
  }

  /** The records of a whole text, separated by line breaks. */
  function ParseCsv(s: string): (r: Option<seq<seq<string>>>)
    ensures r.Some? ==> |r.value| >= 1
    decreases |s|
  {
    match ParseRecord(s) {
      case None => None
      case Some(rec) =>
        if rec.1 == [] then Some([rec.0])
        else
          match ParseCsv(rec.1[1..]) {
            case None => None
            case Some(recs) => Some([rec.0] + recs)
          }
    }
  }

  // ----- The round trip -----

  /** A quoted body followed by anything but another quote reads back as the value. */
  lemma {:induction false} QuotedBodyRoundTrip(v: string, t: string)
    requires t == [] || t[0] != '"'
    ensures ParseQuotedBody(EscapeQuotes(v) + "\"" + t) == Some((v, t))
  {
    var s := EscapeQuotes(v) + "\"" + t;
    if v == [] {
      assert s == "\"" + t;
    } else {
      QuotedBodyRoundTrip(v[1..], t);
      var s' := EscapeQuotes(v[1..]) + "\"" + t;
      if v[0] == '"' {
        assert s == "\"\"" + s';
        assert s[2..] == s';
        assert "\"" + v[1..] == v;
      } else {
        assert s == [v[0]] + s';
        assert s[1..] == s';
        assert [v[0]] + v[1..] == v;
      }
    }
  }

  /** Every quoted field reads back as its value. */
  lemma QuotedFieldRoundTrip(v: string, t: string)
    requires FieldEnd(t)
    ensures ParseField(QuoteField(v) + t) == Some((v, t))
  {
    var s := QuoteField(v) + t;
    assert s[1..] == EscapeQuotes(v) + "\"" + t;
    QuotedBodyRoundTrip(v, t);
  }

  lemma {:induction false} UnquotedLengthPlain(h: string, t: string)
    requires PlainField(h) && FieldEnd(t)
    ensures UnquotedLength(h + t) == |h|
  {
    if h == [] {
      assert h + t == t;
    } else {
      assert (h + t)[1..] == h[1..] + t;
      UnquotedLengthPlain(h[1..], t);
    }
  }

  /** A header without commas, quotes or line breaks reads back unquoted. */
  lemma PlainFieldRoundTrip(h: string, t: string)
    requires PlainField(h) && FieldEnd(t)
    ensures ParseField(h + t) == Some((h, t))
  {
    UnquotedLengthPlain(h, t);
    assert (h + t)[..|h|] == h && (h + t)[|h|..] == t;
  }

  /** Each cell reads back as the matching value, whatever separator follows. */
  ghost predicate FieldsRoundTrip(cells: seq<string>, values: seq<string>)
    requires |cells| == |values|
  {
    forall i, t :: 0 <= i < |cells| && FieldEnd(t) ==> ParseField(cells[i] + t) == Some((values[i], t))
  }

  /** Fields that read back joined by commas read back as a record. */
  lemma {:induction false} RecordRoundTrip(cells: seq<string>, values: seq<string>, t: string)
    requires |cells| == |values| >= 1
    requires FieldsRoundTrip(cells, values)
    requires LineEnd(t)
    ensures ParseRecord(JoinWith(',', cells) + t) == Some((values, t))
  {
    assert FieldEnd(t);
    assert ParseField(cells[0] + t) == Some((values[0], t));
    if |cells| == 1 {
      assert [values[0]] == values;
    } else {
      var rest := JoinWith(',', cells[1..]) + t;
      var u := [','] + rest;
      JoinCons(cells, t);
      assert FieldEnd(u);
      assert ParseField(cells[0] + u) == Some((values[0], u));
      FieldsRoundTripTail(cells, values);
      RecordRoundTrip(cells[1..], values[1..], t);
      RecordCons(cells[0] + u, values[0], rest, values[1..], t);
      assert [values[0]] + values[1..] == values;
    }
  }

  lemma JoinCons(cells: seq<string>, t: string)
    requires |cells| >= 2
    ensures JoinWith(',', cells) + t == cells[0] + ([','] + (JoinWith(',', cells[1..]) + t))
  {
  }

  lemma FieldsRoundTripTail(cells: seq<string>, values: seq<string>)
    requires |cells| == |values| >= 1
    requires FieldsRoundTrip(cells, values)
    ensures FieldsRoundTrip(cells[1..], values[1..])
  {
    forall i, t' | 0 <= i < |cells[1..]| && FieldEnd(t')
      ensures ParseField(cells[1..][i] + t') == Some((values[1..][i], t'))
    {
      assert ParseField(cells[i + 1] + t') == Some((values[i + 1], t'));
    }
  }

  /** A field followed by a comma and a record reads as one record. */
  lemma RecordCons(s: string, v: string, rest: string, vs: seq<string>, t: string)
    requires ParseField(s) == Some((v, [','] + rest))
    requires ParseRecord(rest) == Some((vs, t))
    ensures ParseRecord(s) == Some(([v] + vs, t))
  {
    assert ([','] + rest)[1..] == rest;
  }

  /** Each line reads back as the matching record, whatever follows it. */
  ghost predicate LinesRoundTrip(lines: seq<string>, recs: seq<seq<string>>)
    requires |lines| == |recs|
  {
    forall j, t :: 0 <= j < |lines| && LineEnd(t) ==> ParseRecord(lines[j] + t) == Some((recs[j], t))
  }

  lemma LinesRoundTripTail(lines: seq<string>, recs: seq<seq<string>>)
    requires |lines| == |recs| >= 1
    requires LinesRoundTrip(lines, recs)
    ensures LinesRoundTrip(lines[1..], recs[1..])
  {
    forall j, t | 0 <= j < |lines[1..]| && LineEnd(t)
      ensures ParseRecord(lines[1..][j] + t) == Some((recs[1..][j], t))
    {
      assert ParseRecord(lines[j + 1] + t) == Some((recs[j + 1], t));
    }
  }

  /** Lines that read back joined by line breaks read back as the table. */
  lemma {:induction false} DocumentRoundTrip(lines: seq<string>, recs: seq<seq<string>>)
    requires |lines| == |recs| >= 1
    requires LinesRoundTrip(lines, recs)
    ensures ParseCsv(JoinWith('\n', lines)) == Some(recs)
  {
    if |lines| == 1 {
      assert lines[0] + [] == lines[0];
      assert LineEnd([]);
      assert ParseRecord(lines[0] + []) == Some((recs[0], []));
      assert [recs[0]] == recs;
    } else {
      var rest := JoinWith('\n', lines[1..]);
      var u := ['\n'] + rest;
      assert JoinWith('\n', lines) == lines[0] + u;
      assert LineEnd(u);
      assert ParseRecord(lines[0] + u) == Some((recs[0], u));
      assert u[1..] == rest;
      LinesRoundTripTail(lines, recs);
      DocumentRoundTrip(lines[1..], recs[1..]);
      assert [recs[0]] + recs[1..] == recs;
    }
  }

  /** The header line reads back as the headers. */
  lemma HeaderLineRoundTrip(headers: seq<string>, t: string)
    requires |headers| >= 1 && forall k :: 0 <= k < |headers| ==> PlainField(headers[k])
    requires LineEnd(t)
    ensures ParseRecord(JoinWith(',', headers) + t) == Some((headers, t))
  {
    forall i, t' | 0 <= i < |headers| && FieldEnd(t')
      ensures ParseField(headers[i] + t') == Some((headers[i], t'))
    {
      PlainFieldRoundTrip(headers[i], t');
    }
    RecordRoundTrip(headers, headers, t);
  }

  /** A data line reads back as the row's guarded values. */
  lemma RowLineRoundTrip(headers: seq<string>, row: Row, t: string)
    requires |headers| >= 1 && LineEnd(t)
    ensures ParseRecord(JoinWith(',', RowCells(headers, row)) + t) == Some((RowValues(headers, row), t))
  {
    var cells := RowCells(headers, row);
    var values := RowValues(headers, row);
    forall i, t' | 0 <= i < |cells| && FieldEnd(t')
      ensures ParseField(cells[i] + t') == Some((values[i], t'))
    {
      assert cells[i] == QuoteField(values[i]);
      QuotedFieldRoundTrip(values[i], t');
    }
    RecordRoundTrip(cells, values, t);
  }

  /** The whole file reads back as the header row and every row's values. */
  lemma CsvRoundTrip(headers: seq<string>, data: seq<Row>)
    requires |headers| >= 1 && forall k :: 0 <= k < |headers| ==> PlainField(headers[k])
    ensures ParseCsv(JoinWith('\n', Lines(headers, data))) == Some(Table(headers, data))
  {
    var lines := Lines(headers, data);
    var recs := Table(headers, data);
    forall j, t | 0 <= j < |lines| && LineEnd(t)
      ensures ParseRecord(lines[j] + t) == Some((recs[j], t))
    {
      LineRoundTrip(headers, data, j, t);
    }
    DocumentRoundTrip(lines, recs);
  }

  /** Line `j` of the file reads back as record `j` of the table. */
  lemma LineRoundTrip(headers: seq<string>, data: seq<Row>, j: nat, t: string)
    requires |headers| >= 1 && forall k :: 0 <= k < |headers| ==> PlainField(headers[k])
    requires j <= |data| && LineEnd(t)
    ensures ParseRecord(Lines(headers, data)[j] + t) == Some((Table(headers, data)[j], t))
  {
    if j == 0 {
      HeaderLineRoundTrip(headers, t);
    } else {
      LinesAt(headers, data, j);
      RowLineRoundTrip(headers, data[j - 1], t);
    }
  }

  /** Line `j` after the header is row `j - 1`'s, and so is record `j`. */
  lemma LinesAt(headers: seq<string>, data: seq<Row>, j: nat)
    requires 1 <= j <= |data|
    ensures Lines(headers, data)[j] == JoinWith(',', RowCells(headers, data[j - 1]))
    ensures Table(headers, data)[j] == RowValues(headers, data[j - 1])
  {
    LineAt(headers, data, j);
    RecordAt(headers, data, j);
  }

  lemma LineAt(headers: seq<string>, data: seq<Row>, j: nat)
    requires 1 <= j <= |data|
    ensures Lines(headers, data)[j] == JoinWith(',', RowCells(headers, data[j - 1]))
  {
    var ls := seq(|data|, i requires 0 <= i < |data| => JoinWith(',', RowCells(headers, data[i])));
    assert Lines(headers, data) == [JoinWith(',', headers)] + ls;
    assert Lines(headers, data)[j] == ls[j - 1];
  }

  lemma RecordAt(headers: seq<string>, data: seq<Row>, j: nat)
    requires 1 <= j <= |data|
    ensures Table(headers, data)[j] == RowValues(headers, data[j - 1])
  {
    var ts := seq(|data|, i requires 0 <= i < |data| => RowValues(headers, data[i]));
    assert Table(headers, data) == [headers] + ts;
    assert Table(headers, data)[j] == ts[j - 1];
  }

  /** Example: a Barbados number is guarded in the WhatsApp column and left alone in
      any other column. */
  lemma GuardExample(p: string)
    requires p == "+12465551234"
    ensures Guard("WhatsApp", p) == "'+12465551234"
    ensures Guard("Full Name", p) == p
  {
    TrimKeepsHead(p);
    assert FormulaStart(Trim(p));
  }
}
