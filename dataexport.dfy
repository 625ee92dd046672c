/**
 * `DataExportModule` (js/advanced-features.js): the CSV and XML renderings of an export,
 * the export history that `processExport` appends to, and `getExportHistory`, which sorts
 * that history in place, newest first.
 *
 * The CSV rendering is paired with a reader for the dialect of RFC 4180, section 2, that
 * it writes: fields separated by `,`, records by `\n` (no `\r`), a field that contains
 * `,`, `\n` or `"` enclosed in double quotes with each inner `"` doubled.
 */
module DataExport {
  import opened Records
  import Js

  // ---------------------------------------------------------------------------
  // CSV writing

  /** The characters that force a string cell into quotes. */
  predicate NeedsQuoting(s: string)
  {
    ',' in s || '\n' in s || '"' in s
  }

  /** `value.replace(/"/g, '""')`. */
  function EscapeQuotes(s: string): string
  {
    if s == [] then []
    else (if s[0] == '"' then "\"\"" else [s[0]]) + EscapeQuotes(s[1..])
  }

  /** A field as the CSV writer puts text that needs quoting: enclosed in quotes, inner quotes doubled. */
  function QuoteIfNeeded(s: string): string
  {
    if NeedsQuoting(s) then "\"" + EscapeQuotes(s) + "\"" else s
  }

  /** The text `Array.prototype.join` gives an element: `null` and `undefined` become the empty string. */
  function JoinText(v: Value): string
  {
    match v
    case Str(s) => s
    case Scalar(r) => r
    case Null => ""
    case Undefined => ""
  }

  /** One cell of `convertToCSV`: only string values are inspected for quoting; other values go in as their text. */
  function CsvCell(v: Value): string
  {
    match v
    case Str(s) => QuoteIfNeeded(s)
    case _ => JoinText(v)
  }

  function CsvCells(vs: seq<Value>): (cs: seq<string>)
    ensures |cs| == |vs|
  {
    if vs == [] then [] else [CsvCell(vs[0])] + CsvCells(vs[1..])
  }

  /** `headers.map(header => row[header])`. */
  function RowValues(row: Record, headers: seq<string>): (vs: seq<Value>)
    ensures |vs| == |headers|
    ensures forall j :: 0 <= j < |headers| ==> vs[j] == Get(row, headers[j])
  {
    seq(|headers|, j requires 0 <= j < |headers| => Get(row, headers[j]))
  }

  /** The data lines of `convertToCSV`, one per row, in row order. */
  function CsvLines(data: seq<Record>, headers: seq<string>): (lines: seq<string>)
    ensures |lines| == |data|
  {
    if data == [] then []
    else [Js.Join(CsvCells(RowValues(data[0], headers)), ",")] + CsvLines(data[1..], headers)
  }

  /** `convertToCSV(data)`: the first row's keys as the header line, then one line per row. */
  function ConvertToCSV(data: seq<Record>): string
  {
    if data == [] then ""
    else
      var headers := Keys(data[0]);
      Js.Join([Js.Join(headers, ",")] + CsvLines(data, headers), "\n")
  }

  // ---------------------------------------------------------------------------
  // CSV reading: the reference the writer is checked against

  /** Reads a quoted field after its opening quote: the unescaped text, and what follows the closing quote. */
  function ParseQuoted(s: string): (r: (string, string))
    ensures |r.1| <= |s|
  {
    if s == [] then ("", "")
    else if s[0] == '"' then
      if |s| >= 2 && s[1] == '"' then
        var more := ParseQuoted(s[2..]);
        ("\"" + more.0, more.1)
      else ("", s[1..])
    else
      var more := ParseQuoted(s[1..]);
      ([s[0]] + more.0, more.1)
  }

  /** Reads an unquoted field: everything up to the next `,` or `\n`. */
  function ParsePlain(s: string): (r: (string, string))
    ensures |r.1| <= |s|
  {
    if s == [] || s[0] == ',' || s[0] == '\n' then ("", s)
    else
      var more := ParsePlain(s[1..]);
      ([s[0]] + more.0, more.1)
  }

  function ParseField(s: string): (r: (string, string))
    ensures |r.1| <= |s|
  {
    if s != [] && s[0] == '"' then ParseQuoted(s[1..]) else ParsePlain(s)
  }

  /** Reads the fields of one record, up to the end of the line. */
  function ParseRecord(s: string): (r: (seq<string>, string))
    ensures |r.1| <= |s|
    decreases |s|
  {
    var f := ParseField(s);
    if f.1 != [] && f.1[0] == ',' then
      var more := ParseRecord(f.1[1..]);
      ([f.0] + more.0, more.1)
    else ([f.0], f.1)
  }

  /** Reads every record of a document. */
  function ParseDocument(s: string): seq<seq<string>>
    decreases |s|
  {
    var r := ParseRecord(s);
    if r.1 != [] && r.1[0] == '\n' then [r.0] + ParseDocument(r.1[1..]) else [r.0]
  }

  /** What may follow a field: the end, a field separator or a record separator. */
  predicate EndsField(tail: string)
  {
    tail == [] || tail[0] == ',' || tail[0] == '\n'
  }

  predicate EndsRecord(tail: string)
  {
    tail == [] || tail[0] == '\n'
  }

  lemma {:induction false} QuotedRoundTrip(x: string, tail: string)
    requires tail == [] || tail[0] != '"'
    ensures ParseQuoted(EscapeQuotes(x) + "\"" + tail) == (x, tail)
  {
    var s := EscapeQuotes(x) + "\"" + tail;
    if x == [] {
      assert s == "\"" + tail;
    } else {
      QuotedRoundTrip(x[1..], tail);
      var rest := EscapeQuotes(x[1..]) + "\"" + tail;
      if x[0] == '"' {
        assert s == "\"\"" + rest;
        assert s[2..] == rest;
      } else {
        assert s == [x[0]] + rest;
        assert s[1..] == rest;
      }
      assert x == [x[0]] + x[1..];
    }
  }

  lemma {:induction false} PlainRoundTrip(t: string, tail: string)
    requires ',' !in t && '\n' !in t
    requires EndsField(tail)
    ensures ParsePlain(t + tail) == (t, tail)
  {
    if t == [] {
      assert t + tail == tail;
    } else {
      assert (t + tail)[1..] == t[1..] + tail;
      PlainRoundTrip(t[1..], tail);
      assert t == [t[0]] + t[1..];
    }
  }

  /** Any text written as a field reads back as itself. */
  lemma FieldRoundTrip(t: string, tail: string)
    requires EndsField(tail)
    ensures ParseField(QuoteIfNeeded(t) + tail) == (t, tail)
  {
    var s := QuoteIfNeeded(t) + tail;
    if NeedsQuoting(t) {
      var inner := EscapeQuotes(t) + "\"" + tail;
      assert s != [] && s[0] == '"' && s[1..] == inner by {
        assert s == "\"" + inner;
      }
      QuotedRoundTrip(t, tail);
    } else {
      assert s == t + tail;
      assert s == [] || s[0] != '"' by {
        if t != [] {
          assert s[0] == t[0];
        }
      }
      PlainRoundTrip(t, tail);
    }
  }

  /** The fields written for a list of texts. */
  function Encoded(texts: seq<string>): (fs: seq<string>)
    ensures |fs| == |texts|
  {
    if texts == [] then [] else [QuoteIfNeeded(texts[0])] + Encoded(texts[1..])
  }

  lemma {:induction false} RecordRoundTrip(texts: seq<string>, tail: string)
    requires |texts| >= 1
    requires EndsRecord(tail)
    ensures ParseRecord(Js.Join(Encoded(texts), ",") + tail) == (texts, tail)
  {
    var fs := Encoded(texts);
    var first := QuoteIfNeeded(texts[0]);
    if |texts| == 1 {
      assert Js.Join(fs, ",") == first;
      assert texts == [texts[0]];
      FieldRoundTrip(texts[0], tail);
    } else {
      var rest := Js.Join(Encoded(texts[1..]), ",") + tail;
      assert fs[1..] == Encoded(texts[1..]);
      assert Js.Join(fs, ",") + tail == first + ("," + rest);
      FieldRoundTrip(texts[0], "," + rest);
      assert ("," + rest)[1..] == rest;
      RecordRoundTrip(texts[1..], tail);
      assert texts == [texts[0]] + texts[1..];
    }
  }

  /** The lines written for a list of records of texts. */
  function EncodedRows(rows: seq<seq<string>>): (lines: seq<string>)
    ensures |lines| == |rows|
  {
    if rows == [] then [] else [Js.Join(Encoded(rows[0]), ",")] + EncodedRows(rows[1..])
  }

  /** Rows of at least one field each, written with quoting, read back as themselves. */
  lemma {:induction false} DocumentRoundTrip(rows: seq<seq<string>>)
    requires |rows| >= 1
    requires forall i :: 0 <= i < |rows| ==> |rows[i]| >= 1
    ensures ParseDocument(Js.Join(EncodedRows(rows), "\n")) == rows
  {
    var lines := EncodedRows(rows);
    if |rows| == 1 {
      assert Js.Join(lines, "\n") == lines[0] + "";
      RecordRoundTrip(rows[0], "");
    } else {
      var rest := Js.Join(EncodedRows(rows[1..]), "\n");
      assert lines[1..] == EncodedRows(rows[1..]);
      assert Js.Join(lines, "\n") == lines[0] + ("\n" + rest);
      RecordRoundTrip(rows[0], "\n" + rest);
      assert ("\n" + rest)[1..] == rest;
      DocumentRoundTrip(rows[1..]);
      assert rows == [rows[0]] + rows[1..];
    }
  }

  // ---------------------------------------------------------------------------
  // What the CSV says

  /** The texts a row contributes, one per header. */
  function Texts(vs: seq<Value>): (ts: seq<string>)
    ensures |ts| == |vs|
    ensures forall j :: 0 <= j < |vs| ==> ts[j] == JoinText(vs[j])
  {
    if vs == [] then [] else [JoinText(vs[0])] + Texts(vs[1..])
  }

  function TextRows(data: seq<Record>, headers: seq<string>): (rows: seq<seq<string>>)
    ensures |rows| == |data|
    ensures forall i :: 0 <= i < |data| ==> rows[i] == Texts(RowValues(data[i], headers))
  {
    if data == [] then [] else [Texts(RowValues(data[0], headers))] + TextRows(data[1..], headers)
  }

  /** The CSV writer with every field quoted when its text needs it, headers and non-string values included. */
  function ConvertToCSVQuoted(data: seq<Record>): string
  {
    if data == [] then ""
    else
      var headers := Keys(data[0]);
      Js.Join(EncodedRows([headers] + TextRows(data, headers)), "\n")
  }

  /**
   * With every field quoted as needed, the CSV reads back as the first row's keys followed
   * by, for each row, the text of its value under each of those keys (the empty text for a
   * missing key, `null` or `undefined`). Keys that only later rows have are not columns.
   */
  lemma ConvertToCSVQuotedRoundTrip(data: seq<Record>)
    requires data != [] && |Keys(data[0])| >= 1
    ensures ParseDocument(ConvertToCSVQuoted(data)) == [Keys(data[0])] + TextRows(data, Keys(data[0]))
  {
    var headers := Keys(data[0]);
    var rows := [headers] + TextRows(data, headers);
    TextRowsWide(data, headers);
    HeadedRowsWide(headers, TextRows(data, headers));
    assert ConvertToCSVQuoted(data) == Js.Join(EncodedRows(rows), "\n");
    DocumentRoundTrip(rows);
  }

  /** A header line of at least one field over rows as wide as it: no line of the document is empty. */
  lemma HeadedRowsWide(headers: seq<string>, texts: seq<seq<string>>)
    requires |headers| >= 1
    requires forall i :: 0 <= i < |texts| ==> |texts[i]| == |headers|
    ensures forall i :: 0 <= i < |[headers] + texts| ==> |([headers] + texts)[i]| >= 1
  {
    var rows := [headers] + texts;
    forall i | 0 <= i < |rows| ensures |rows[i]| >= 1 {
      if i > 0 {
        assert rows[i] == texts[i - 1];
      }
    }
  }

  /** Every row of texts has one text per header. */
  lemma TextRowsWide(data: seq<Record>, headers: seq<string>)
    ensures forall i :: 0 <= i < |data| ==> |TextRows(data, headers)[i]| == |headers|
  {
    forall i | 0 <= i < |data| ensures |TextRows(data, headers)[i]| == |headers| {
      TextRowWidth(data, headers, i);
    }
  }

  lemma TextRowWidth(data: seq<Record>, headers: seq<string>, i: nat)
    requires i < |data|
    ensures |TextRows(data, headers)[i]| == |headers|
  {
  }

  /** The condition under which `convertToCSV`'s selective quoting is enough: no header and no non-string value needs quotes. */
  ghost predicate CsvSafe(data: seq<Record>)
    requires data != []
  {
    var headers := Keys(data[0]);
    && (forall j :: 0 <= j < |headers| ==> !NeedsQuoting(headers[j]))
    && (forall i, j :: 0 <= i < |data| && 0 <= j < |headers| ==>
          Get(data[i], headers[j]).Scalar? ==> !NeedsQuoting(Get(data[i], headers[j]).rendered))
  }

  lemma {:induction false} EncodedPlain(texts: seq<string>)
    requires forall j :: 0 <= j < |texts| ==> !NeedsQuoting(texts[j])
    ensures Encoded(texts) == texts
  {
    if texts != [] {
      EncodedPlain(texts[1..]);
    }
  }

  lemma {:induction false} CsvCellsQuoted(vs: seq<Value>)
    requires forall j :: 0 <= j < |vs| ==> vs[j].Scalar? ==> !NeedsQuoting(vs[j].rendered)
    ensures CsvCells(vs) == Encoded(Texts(vs))
  {
    if vs != [] {
      CsvCellsQuoted(vs[1..]);
      assert Texts(vs)[1..] == Texts(vs[1..]);
    }
  }

  lemma {:induction false} CsvLinesQuoted(data: seq<Record>, headers: seq<string>)
    requires forall i, j :: 0 <= i < |data| && 0 <= j < |headers| ==>
      Get(data[i], headers[j]).Scalar? ==> !NeedsQuoting(Get(data[i], headers[j]).rendered)
    ensures CsvLines(data, headers) == EncodedRows(TextRows(data, headers))
  {
    if data != [] {
      CsvCellsQuoted(RowValues(data[0], headers));
      CsvLinesQuoted(data[1..], headers);
      assert TextRows(data, headers)[1..] == TextRows(data[1..], headers);
    }
  }

  /** When no header and no non-string value needs quotes, `convertToCSV` writes what the fully quoting writer writes. */
  lemma ConvertToCSVAgrees(data: seq<Record>)
    requires data != [] && CsvSafe(data)
    ensures ConvertToCSV(data) == ConvertToCSVQuoted(data)
  {
    var headers := Keys(data[0]);
    EncodedPlain(headers);
    CsvLinesQuoted(data, headers);
  }

  /**
   * `convertToCSV` round-trips whenever no header and no non-string value needs quotes:
   * the document reads back as the header line and one line of texts per row.
   */
  lemma ConvertToCSVRoundTrip(data: seq<Record>)
    requires data != [] && |Keys(data[0])| >= 1 && CsvSafe(data)
    ensures var headers := Keys(data[0]);
      ParseDocument(ConvertToCSV(data)) == [headers] + TextRows(data, headers)
  {
    ConvertToCSVAgrees(data);
    ConvertToCSVQuotedRoundTrip(data);
  }

  /** No rows, no text. */
  lemma ConvertToCSVEmpty()
    ensures ConvertToCSV([]) == "" && ConvertToCSVQuoted([]) == ""
  {
  }

  /**
   * A non-string value whose text holds a comma (an array `[1, 2]` renders as `1,2`) is not
   * quoted, so its line reads back with one field too many; the quoting writer keeps it whole.
   */
  lemma ArrayValueSplitsLine()
    ensures ConvertToCSV([[Field("tags", Scalar("1,2"))]]) == "tags\n1,2"
    ensures ParseDocument("tags\n1,2") == [["tags"], ["1", "2"]]
    ensures ParseDocument(ConvertToCSVQuoted([[Field("tags", Scalar("1,2"))]])) == [["tags"], ["1,2"]]
  {
    ArrayValueWritten();
    ArrayValueRead();
    ArrayValueQuoted();
  }

  lemma ArrayValueWritten()
    ensures ConvertToCSV([[Field("tags", Scalar("1,2"))]]) == "tags\n1,2"
  {
    var data := [[Field("tags", Scalar("1,2"))]];
    assert Keys(data[0]) == ["tags"];
    assert RowValues(data[0], ["tags"]) == [Scalar("1,2")];
    assert CsvLines(data, ["tags"]) == ["1,2"];
    assert Js.Join(["tags", "1,2"], "\n") == "tags\n1,2" by {
      assert ["tags", "1,2"][1..] == ["1,2"];
    }
  }

  lemma ArrayValueRead()
    ensures ParseDocument("tags\n1,2") == [["tags"], ["1", "2"]]
  {
    var rows := [["tags"], ["1", "2"]];
    assert !NeedsQuoting("tags") && !NeedsQuoting("1") && !NeedsQuoting("2");
    EncodedPlain(rows[0]);
    EncodedPlain(rows[1]);
    assert Js.Join(["1", "2"], ",") == "1,2" by {
      assert ["1", "2"][1..] == ["2"];
    }
    assert rows[1..] == [["1", "2"]] && rows[1..][1..] == [];
    assert EncodedRows(rows) == ["tags", "1,2"];
    assert Js.Join(["tags", "1,2"], "\n") == "tags\n1,2" by {
      assert ["tags", "1,2"][1..] == ["1,2"];
    }
    DocumentRoundTrip(rows);
  }

  lemma ArrayValueQuoted()
    ensures ParseDocument(ConvertToCSVQuoted([[Field("tags", Scalar("1,2"))]])) == [["tags"], ["1,2"]]
  {
    var data := [[Field("tags", Scalar("1,2"))]];
    assert Keys(data[0]) == ["tags"];
    ConvertToCSVQuotedRoundTrip(data);
    assert RowValues(data[0], ["tags"]) == [Scalar("1,2")];
    assert Texts([Scalar("1,2")]) == ["1,2"];
    assert TextRows(data, ["tags"])[0] == ["1,2"];
    assert TextRows(data, ["tags"]) == [["1,2"]];
  }

  // ---------------------------------------------------------------------------
  // XML

  /** The input of `convertToXML`: the export's `metadata` object and its `data` rows. */
  datatype ExportData = ExportData(metadata: Record, data: seq<Record>)

  /** The text a template literal `${value}` gives: `null` and `undefined` are spelled out. */
  function TemplateText(v: Value): string
  {
    match v
    case Str(s) => s
    case Scalar(r) => r
    case Null => "null"
    case Undefined => "undefined"
  }

  /** One `<key>value</key>` line, without escaping. */
  function Element(indent: string, f: Field): string
  {
    indent + OpenTag(f.key) + TemplateText(f.value) + CloseTag(f.key)
  }

  function OpenTag(key: string): string
  {
    "<" + key + ">"
  }

  function CloseTag(key: string): string
  {
    "</" + key + ">\n"
  }

  /** The element lines of an object's entries, in entry order. */
  function Elements(indent: string, r: Record): string
  {
    if r == [] then "" else Elements(indent, r[..|r| - 1]) + Element(indent, r[|r| - 1])
  }

  const XmlProlog: string := "<?xml version=\"1.0\" encoding=\"UTF-8\"?>\n"

  function RecordOpen(k: nat): string
  {
    "    <record id=\"" + Js.NatToString(k) + "\">\n"
  }

  const RecordClose: string := "    </record>\n"

  /** The block for the row at 1-based position `k`. */
  function RecordBlock(k: nat, item: Record): string
  {
    RecordOpen(k) + Elements("      ", item) + RecordClose
  }

  /** The record blocks of `items`, numbered from 1. */
  function RecordBlocks(items: seq<Record>): string
  {
    if items == [] then "" else RecordBlocks(items[..|items| - 1]) + RecordBlock(|items|, items[|items| - 1])
  }

  /** The document `convertToXML` builds. */
  function XmlDocument(d: ExportData): string
  {
    XmlProlog + "<export>\n" + "  <metadata>\n" + Elements("    ", d.metadata) + "  </metadata>\n"
      + "  <data>\n" + RecordBlocks(d.data) + "  </data>\n" + "</export>"
  }

  /** The concatenation of a list of strings. */
  function Concat(parts: seq<string>): string
  {
    if parts == [] then "" else Concat(parts[..|parts| - 1]) + parts[|parts| - 1]
  }

  lemma {:induction false} ConcatAppend(parts: seq<string>, p: string)
    ensures Concat(parts + [p]) == Concat(parts) + p
  {
    assert (parts + [p])[..|parts|] == parts;
  }

  /** The data section holds one block per row, the `k`-th (from 0) with id `k + 1`, in row order. */
  lemma {:induction false} RecordBlocksNumbered(items: seq<Record>)
    ensures RecordBlocks(items) == Concat(seq(|items|, k requires 0 <= k < |items| => RecordBlock(k + 1, items[k])))
  {
    var blocks := seq(|items|, k requires 0 <= k < |items| => RecordBlock(k + 1, items[k]));
    if items != [] {
      var p := items[..|items| - 1];
      var last := RecordBlock(|items|, items[|items| - 1]);
      var pblocks := seq(|p|, k requires 0 <= k < |p| => RecordBlock(k + 1, p[k]));
      assert blocks == pblocks + [last] by {
        assert forall k :: 0 <= k < |p| ==> blocks[k] == pblocks[k];
      }
      assert RecordBlocks(p) == Concat(pblocks) by {
        RecordBlocksNumbered(p);
      }
      ConcatAppend(pblocks, last);
      assert RecordBlocks(items) == RecordBlocks(p) + last;
    }
  }

  /** Distinct rows get distinct ids: the opening tags of two positions differ. */
  lemma RecordIdsDistinct(j: nat, k: nat)
    ensures RecordOpen(j) == RecordOpen(k) ==> j == k
  {
    if RecordOpen(j) == RecordOpen(k) {
      var prefix := "    <record id=\"";
      var dj, dk := Js.NatToString(j), Js.NatToString(k);
      assert RecordOpen(j) == prefix + dj + "\">\n";
      assert RecordOpen(k) == prefix + dk + "\">\n";
      assert |dj| == |dk|;
      assert dj == RecordOpen(j)[|prefix|..|prefix| + |dj|];
      assert dk == RecordOpen(k)[|prefix|..|prefix| + |dk|];
      Js.NatToStringInjective(j, k);
    }
  }

  /**
   * Keys and values are written without escaping, so the document does not determine its
   * input: a value holding markup reads the same as two separate entries.
   */
  /** A value that closes its own element and record and opens the next record. */
  function Forged(key: string, a: string, b: string): string
  {
    a + CloseTag(key) + RecordClose + RecordOpen(2) + "      " + OpenTag(key) + b
  }

  lemma {:induction false} SingleElement(indent: string, f: Field)
    ensures Elements(indent, [f]) == Element(indent, f)
  {
    assert [f][..0] == [];
    assert Elements(indent, [f]) == "" + Element(indent, f);
  }

  lemma ConcatRegroup(o1: string, ind: string, op: string, a: string, cl: string, rc: string, o2: string, b: string)
    ensures o1 + (ind + op + (a + cl + rc + o2 + ind + op + b) + cl) + rc
         == o1 + (ind + op + a + cl) + rc + (o2 + (ind + op + b + cl) + rc)
  {
  }

  /**
   * Keys and values are written without escaping, so the document does not determine the
   * rows: one row whose value holds markup reads the same as two rows.
   */
  lemma XmlUnescaped(key: string, a: string, b: string)
    ensures RecordBlocks([[Field(key, Str(Forged(key, a, b)))]]) == RecordBlocks([[Field(key, Str(a))], [Field(key, Str(b))]])
  {
    var forged := [[Field(key, Str(Forged(key, a, b)))]];
    var plain := [[Field(key, Str(a))], [Field(key, Str(b))]];
    SingleElement("      ", Field(key, Str(a)));
    SingleElement("      ", Field(key, Str(b)));
    SingleElement("      ", Field(key, Str(Forged(key, a, b))));
    assert RecordBlocks(plain[..1]) == RecordBlock(1, plain[0]) by {
      assert plain[..1] == [plain[0]];
      assert plain[..1][..0] == [];
      assert RecordBlocks(plain[..1]) == "" + RecordBlock(1, plain[0]);
    }
    assert RecordBlocks(plain) == RecordBlock(1, plain[0]) + RecordBlock(2, plain[1]);
    assert RecordBlocks(forged) == RecordBlock(1, forged[0]) by {
      assert forged[..0] == [];
      assert RecordBlocks(forged) == "" + RecordBlock(1, forged[0]);
    }
    ConcatRegroup(RecordOpen(1), "      ", OpenTag(key), a, CloseTag(key), RecordClose, RecordOpen(2), b);
  }

  /** Appends the element lines of `r`'s entries, as the `forEach` loops of `convertToXML` do. */
  method AppendElements(xml: string, indent: string, r: Record) returns (out: string)
    ensures out == xml + Elements(indent, r)
  {
    out := xml;
    var i := 0;
    while i < |r|
      invariant 0 <= i <= |r|
      invariant out == xml + Elements(indent, r[..i])
    {
      assert r[..i + 1][..i] == r[..i];
      out := out + Element(indent, r[i]);
      i := i + 1;
    }
    assert r[..i] == r;
  }

  lemma AppendAssoc(a: string, b: string, c: string)
    ensures a + b + c == a + (b + c)
  {
  }

  /** One iteration of the `data.data.forEach` loop: the opening tag, the row's elements, the closing tag. */
  method AppendRecord(xml: string, k: nat, item: Record) returns (out: string)
    ensures out == xml + RecordBlock(k, item)
  {
    out := xml + RecordOpen(k);
    out := AppendElements(out, "      ", item);
    out := out + RecordClose;
  }

  /** The `data.data.forEach` loop of `convertToXML`: one block per row, numbered from 1. */
  method AppendRecords(xml: string, items: seq<Record>) returns (out: string)
    ensures out == xml + RecordBlocks(items)
  {
    out := xml;
    var k := 0;
    while k < |items|
      invariant 0 <= k <= |items|
      invariant out == xml + RecordBlocks(items[..k])
    {
      var item := items[k];
      out := AppendRecord(out, k + 1, item);
      assert RecordBlocks(items[..k + 1]) == RecordBlocks(items[..k]) + RecordBlock(k + 1, item) by {
        assert items[..k + 1][..k] == items[..k];
      }
      AppendAssoc(xml, RecordBlocks(items[..k]), RecordBlock(k + 1, item));
      k := k + 1;
    }
    assert items[..k] == items;
  }

  /** `convertToXML(data)`: the document is built by appending line after line. */
  method ConvertToXML(d: ExportData) returns (xml: string)
    ensures xml == XmlDocument(d)
  {
    xml := XmlProlog;
    xml := xml + "<export>\n";
    xml := xml + "  <metadata>\n";
    xml := AppendElements(xml, "    ", d.metadata);
    xml := xml + "  </metadata>\n";
    xml := xml + "  <data>\n";
    xml := AppendRecords(xml, d.data);
    xml := xml + "  </data>\n";
    xml := xml + "</export>";
  }

  // ---------------------------------------------------------------------------
  // Export history

  datatype ExportStatus = Processing | Completed | Failed

  datatype ExportRecord = ExportRecord(
    id: int,
    filename: string,
    format: string,
    recordCount: nat,
    size: nat,
    timestamp: int,
    status: ExportStatus)

  /** The formats `processExport` can render. */
  predicate Renderable(format: string)
  {
    format == "json" || format == "csv" || format == "xml"
  }

  /** Inserts `x` before the first entry that is not newer than it. */
  function InsertNewestFirst(x: ExportRecord, s: seq<ExportRecord>): (r: seq<ExportRecord>)
    ensures |r| == |s| + 1
  {
    if s == [] then [x]
    else if s[0].timestamp <= x.timestamp then [x] + s
    else [s[0]] + InsertNewestFirst(x, s[1..])
  }

  lemma {:induction false} InsertPermutes(x: ExportRecord, s: seq<ExportRecord>)
    ensures multiset(InsertNewestFirst(x, s)) == multiset(s) + multiset{x}
  {
    if s != [] && s[0].timestamp > x.timestamp {
      InsertPermutes(x, s[1..]);
      assert s == [s[0]] + s[1..];
    }
  }

  /** `exportHistory.sort((a, b) => new Date(b.timestamp) - new Date(a.timestamp))`: a stable sort, newest first. */
  function NewestFirst(s: seq<ExportRecord>): (r: seq<ExportRecord>)
    ensures |r| == |s|
  {
    if s == [] then [] else InsertNewestFirst(s[0], NewestFirst(s[1..]))
  }

  ghost predicate SortedNewestFirst(s: seq<ExportRecord>)
  {
    forall i, j :: 0 <= i < j < |s| ==> s[i].timestamp >= s[j].timestamp
  }

  /** The entries of `s` stamped `t`, in order. */
  function StampedAt(s: seq<ExportRecord>, t: int): seq<ExportRecord>
  {
    if s == [] then [] else (if s[0].timestamp == t then [s[0]] else []) + StampedAt(s[1..], t)
  }

  lemma {:induction false} InsertSorted(x: ExportRecord, s: seq<ExportRecord>)
    requires SortedNewestFirst(s)
    ensures SortedNewestFirst(InsertNewestFirst(x, s))
  {
    if s != [] && s[0].timestamp > x.timestamp {
      var tail := s[1..];
      var r := InsertNewestFirst(x, tail);
      assert SortedNewestFirst(r) by {
        assert SortedNewestFirst(tail);
        InsertSorted(x, tail);
      }
      assert forall j :: 0 <= j < |r| ==> r[j].timestamp <= s[0].timestamp by {
        InsertNoNewer(x, tail, s[0].timestamp);
      }
      var whole := [s[0]] + r;
      assert whole == InsertNewestFirst(x, s);
      forall i, j | 0 <= i < j < |whole| ensures whole[i].timestamp >= whole[j].timestamp {
        assert whole[j] == r[j - 1];
        if i > 0 {
          assert whole[i] == r[i - 1];
        }
      }
    }
  }

  /** Inserting an entry no newer than `t` among entries no newer than `t` gives entries no newer than `t`. */
  lemma {:induction false} InsertNoNewer(x: ExportRecord, s: seq<ExportRecord>, t: int)
    requires x.timestamp <= t
    requires forall k :: 0 <= k < |s| ==> s[k].timestamp <= t
    ensures forall k :: 0 <= k < |InsertNewestFirst(x, s)| ==> InsertNewestFirst(x, s)[k].timestamp <= t
  {
    if s != [] && s[0].timestamp > x.timestamp {
      InsertNoNewer(x, s[1..], t);
      var r := InsertNewestFirst(x, s[1..]);
      assert InsertNewestFirst(x, s) == [s[0]] + r;
    }
  }

  lemma {:induction false} InsertStable(x: ExportRecord, s: seq<ExportRecord>, t: int)
    ensures StampedAt(InsertNewestFirst(x, s), t) == (if x.timestamp == t then [x] else []) + StampedAt(s, t)
  {
    var r := InsertNewestFirst(x, s);
    if s == [] {
      assert r == [x];
      assert StampedAt(r, t) == (if x.timestamp == t then [x] else []) + StampedAt(r[1..], t);
      assert r[1..] == [];
    } else if s[0].timestamp <= x.timestamp {
      assert r == [x] + s;
      assert r[1..] == s;
      assert StampedAt(r, t) == (if x.timestamp == t then [x] else []) + StampedAt(r[1..], t);
    } else {
      var rest := InsertNewestFirst(x, s[1..]);
      assert r == [s[0]] + rest;
      assert r[1..] == rest;
      InsertStable(x, s[1..], t);
      assert StampedAt(r, t) == (if s[0].timestamp == t then [s[0]] else []) + StampedAt(rest, t);
      assert StampedAt(s, t) == (if s[0].timestamp == t then [s[0]] else []) + StampedAt(s[1..], t);
    }
  }

  /**
   * Newest-first ordering sorts by timestamp, keeps every entry exactly as often as it was
   * there, and is stable: entries with equal timestamps keep their relative order.
   */
  lemma {:induction false} NewestFirstSpec(s: seq<ExportRecord>)
    ensures SortedNewestFirst(NewestFirst(s))
    ensures multiset(NewestFirst(s)) == multiset(s)
    ensures forall t :: StampedAt(NewestFirst(s), t) == StampedAt(s, t)
  {
    if s != [] {
      NewestFirstSpec(s[1..]);
      InsertSorted(s[0], NewestFirst(s[1..]));
      InsertPermutes(s[0], NewestFirst(s[1..]));
      assert s == [s[0]] + s[1..];
      forall t ensures StampedAt(NewestFirst(s), t) == StampedAt(s, t) {
        InsertStable(s[0], NewestFirst(s[1..]), t);
      }
    }
  }

  class DataExportModule {
    const exportFormats: seq<string>
    var exportHistory: seq<ExportRecord>

    constructor ()
      ensures exportFormats == ["json", "csv", "xml", "excel"]
      ensures exportHistory == []
    {
      exportFormats := ["json", "csv", "xml", "excel"];
      exportHistory := [];
    }

    /**
     * The bookkeeping of `processExport(data, format, filename)` at time `now`, whose ISO text
     * is `isoNow`; `size` is the length of the JSON text of `data`. The record is appended
     * and ends `completed` for a renderable format and `failed` otherwise.
     */
    method ProcessExport(d: ExportData, format: string, filename: string, now: int, isoNow: string, size: nat)
      returns (success: bool, exportRecord: ExportRecord)
      modifies this
      ensures success <==> Renderable(format)
      ensures exportRecord == ExportRecord(now, filename + "_" + Js.BeforeFirst(isoNow, 'T'), format, |d.data|, size, now,
                                           if Renderable(format) then Completed else Failed)
      ensures exportHistory == old(exportHistory) + [exportRecord]
    {
      exportRecord := ExportRecord(now, filename + "_" + Js.BeforeFirst(isoNow, 'T'), format, |d.data|, size, now, Processing);
      exportHistory := exportHistory + [exportRecord];
      var status := if Renderable(format) then Completed else Failed;
      exportRecord := exportRecord.(status := status);
      exportHistory := exportHistory[|exportHistory| - 1 := exportRecord];
      success := status == Completed;
    }

    /** `getExportHistory()`: sorts the history in place, newest first, and returns it. */
    method GetExportHistory() returns (history: seq<ExportRecord>)
      modifies this
      ensures exportHistory == NewestFirst(old(exportHistory))
      ensures history == exportHistory
      ensures SortedNewestFirst(history) && multiset(history) == multiset(old(exportHistory))
    {
      NewestFirstSpec(exportHistory);
      exportHistory := NewestFirst(exportHistory);
      history := exportHistory;
    }

    /** `clearExportHistory()`. */
    method ClearExportHistory()
      modifies this
      ensures exportHistory == []
    {
      exportHistory := [];
    }
  }
}
