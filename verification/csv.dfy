/** CSV text as the export writes it: each field escaped, fields joined by
    commas, records joined by line feeds. A reader for that text is defined
    alongside, and reading what was written gives back every field. */
module Csv {
  import opened Types

  /** A field is quoted when it holds a comma, a double quote or a line
      feed. */
  predicate NeedsQuoting(v: string) {
    ',' in v || '"' in v || '\n' in v
  }

  function CountQuotes(v: string): nat
    decreases |v|
  {
    if |v| == 0 then 0 else (if v[0] == '"' then 1 else 0) + CountQuotes(v[1..])
  }

  /** `value.replace(/"/g, '""')`. */
  function DoubleQuotes(v: string): (r: string)
    ensures |r| == |v| + CountQuotes(v)
    decreases |v|
  {
    if |v| == 0 then []
    else (if v[0] == '"' then "\"\"" else [v[0]]) + DoubleQuotes(v[1..])
  }

  /** escapeCSVField: null becomes the empty field; a value that needs
      quoting is wrapped in quotes with its quotes doubled; any other value
      is written as it is. */
  function EscapeCSVField(value: Option<string>): (r: string)
    ensures value.None? ==> r == ""
    ensures value.Some? && !NeedsQuoting(value.value) ==> r == value.value
    ensures value.Some? && NeedsQuoting(value.value) ==>
      && |r| == |value.value| + 2 + CountQuotes(value.value)
      && r[0] == '"' && r[|r| - 1] == '"'
  {
    match value
    case None => ""
    case Some(v) => if NeedsQuoting(v) then "\"" + DoubleQuotes(v) + "\"" else v
  }

  /** `parts.join(sep)`. */
  function Join(sep: char, parts: seq<string>): string
    decreases |parts|
  {
    if |parts| == 0 then []
    else if |parts| == 1 then parts[0]
    else parts[0] + [sep] + Join(sep, parts[1..])
  }

  function EscapeAll(values: seq<Option<string>>): (r: seq<string>)
    ensures |r| == |values|
    ensures forall i :: 0 <= i < |r| ==> r[i] == EscapeCSVField(values[i])
    decreases |values|
  {
    if |values| == 0 then [] else [EscapeCSVField(values[0])] + EscapeAll(values[1..])
  }

  /** One line of the file: the escaped fields joined by commas. */
  function EncodeRecord(values: seq<Option<string>>): string {
    Join(',', EscapeAll(values))
  }

  function EncodeAll(records: seq<seq<Option<string>>>): (r: seq<string>)
    ensures |r| == |records|
    decreases |records|
  {
    if |records| == 0 then [] else [EncodeRecord(records[0])] + EncodeAll(records[1..])
  }

  /** The whole file: the lines joined by line feeds. */
  function EncodeDocument(records: seq<seq<Option<string>>>): string {
    Join('\n', EncodeAll(records))
  }

  // ------------------------------------------------------------- reading

  /** The text a reader sees in a field: null was written as nothing. */
  function Text(value: Option<string>): string {
    value.GetOr("")
  }

  function TextAll(values: seq<Option<string>>): (r: seq<string>)
    ensures |r| == |values|
    ensures forall i :: 0 <= i < |r| ==> r[i] == Text(values[i])
    decreases |values|
  {
    if |values| == 0 then [] else [Text(values[0])] + TextAll(values[1..])
  }

  function TextRecords(records: seq<seq<Option<string>>>): (r: seq<seq<string>>)
    ensures |r| == |records|
    ensures forall i :: 0 <= i < |r| ==> r[i] == TextAll(records[i])
    decreases |records|
  {
    if |records| == 0 then [] else [TextAll(records[0])] + TextRecords(records[1..])
  }

  /** Reads the inside of a quoted field, after its opening quote: two
      quotes stand for one, a single quote closes the field. Gives the text
      and what follows the closing quote. */
  function ReadQuoted(s: string): (r: Option<(string, string)>)
    ensures r.Some? ==> |r.value.1| < |s|
    decreases |s|
  {
    if |s| == 0 then None
    else if s[0] == '"' then
      if |s| > 1 && s[1] == '"' then
        (match ReadQuoted(s[2..])
         case None => None
         case Some((body, rest)) => Some(("\"" + body, rest)))
      else Some(([], s[1..]))
    else
      match ReadQuoted(s[1..])
      case None => None
      case Some((body, rest)) => Some(([s[0]] + body, rest))
  }

  /** Reads an unquoted field up to the next comma or line feed. */
  function ReadPlain(s: string): (r: (string, string))
    ensures r.0 + r.1 == s
    decreases |s|
  {
    if |s| == 0 || s[0] == ',' || s[0] == '\n' then ([], s)
    else
      var (f, rest) := ReadPlain(s[1..]);
      ([s[0]] + f, rest)
  }

  function ReadField(s: string): (r: Option<(string, string)>)
    ensures r.Some? ==> |r.value.1| <= |s|
  {
    if |s| > 0 && s[0] == '"' then ReadQuoted(s[1..])
    else
      var (f, rest) := ReadPlain(s);
      assert |f + rest| == |s|;
      Some((f, rest))
  }

  /** Reads one record: its fields, and what follows its line feed when it
      ends in one. Text after a closing quote other than a separator is
      malformed. */
  function ReadRecord(s: string): (r: Option<(seq<string>, Option<string>)>)
    ensures r.Some? && r.value.1.Some? ==> |r.value.1.value| < |s|
    decreases |s|
  {
    match ReadField(s)
    case None => None
    case Some((f, rest)) =>
      if |rest| == 0 then Some(([f], None))
      else if rest[0] == '\n' then Some(([f], Some(rest[1..])))
      else if rest[0] == ',' then
        (match ReadRecord(rest[1..])
         case None => None
         case Some((fields, next)) => Some(([f] + fields, next)))
      else None
  }

  /** Reads every record of a file. */
  function ReadCsv(s: string): (r: Option<seq<seq<string>>>)
    decreases |s|
  {
    match ReadRecord(s)
    case None => None
    case Some((fields, None)) => Some([fields])
    case Some((fields, Some(more))) =>
      match ReadCsv(more)
      case None => None
      case Some(records) => Some([fields] + records)
  }

  // ---------------------------------------------------------- round trip

  /** What may follow a field: nothing, or a separator. */
  predicate Boundary(t: string) {
    t == [] || t[0] == ',' || t[0] == '\n'
  }

  lemma {:induction false} ReadDoubled(v: string, t: string)
    requires t == [] || t[0] != '"'
    ensures ReadQuoted(DoubleQuotes(v) + "\"" + t) == Some((v, t))
    decreases |v|
  {
    var s := DoubleQuotes(v) + "\"" + t;
    if |v| == 0 {
      assert s == "\"" + t;
      assert s[1..] == t;
    } else if v[0] == '"' {
      assert s == "\"\"" + (DoubleQuotes(v[1..]) + "\"" + t);
      assert s[2..] == DoubleQuotes(v[1..]) + "\"" + t;
      ReadDoubled(v[1..], t);
      assert "\"" + v[1..] == v;
    } else {
      assert s == [v[0]] + (DoubleQuotes(v[1..]) + "\"" + t);
      assert s[1..] == DoubleQuotes(v[1..]) + "\"" + t;
      ReadDoubled(v[1..], t);
      assert [v[0]] + v[1..] == v;
    }
  }

  lemma {:induction false} ReadPlainExact(v: string, t: string)
    requires !NeedsQuoting(v) && Boundary(t)
    ensures ReadPlain(v + t) == (v, t)
    decreases |v|
  {
    if |v| == 0 {
      assert v + t == t;
    } else {
      assert v[0] in v;
      assert (v + t)[1..] == v[1..] + t;
      assert forall c :: c in v[1..] ==> c in v;
      ReadPlainExact(v[1..], t);
      assert [v[0]] + v[1..] == v;
    }
  }

  /** A written field followed by a separator reads back as its text. */
  lemma ReadEscaped(value: Option<string>, t: string)
    requires Boundary(t)
    ensures ReadField(EscapeCSVField(value) + t) == Some((Text(value), t))
  {
    match value
    case None =>
      assert EscapeCSVField(value) + t == t;
      ReadPlainExact([], t);
    case Some(v) =>
      if NeedsQuoting(v) {
        var s := EscapeCSVField(value) + t;
        assert s == "\"" + (DoubleQuotes(v) + "\"" + t);
        assert s[1..] == DoubleQuotes(v) + "\"" + t;
        ReadDoubled(v, t);
      } else {
        if |v| > 0 {
          assert v[0] in v;
        }
        ReadPlainExact(v, t);
      }
  }

  /** A written record followed by nothing or a line feed reads back as its
      fields' text. */
  lemma {:induction false} ReadEncodedRecord(values: seq<Option<string>>, t: string)
    requires |values| > 0
    requires t == [] || t[0] == '\n'
    ensures ReadRecord(EncodeRecord(values) + t) ==
            Some((TextAll(values), if t == [] then None else Some(t[1..])))
    decreases |values|
  {
    if |values| == 1 {
      var escaped := EscapeAll(values);
      assert EncodeRecord(values) == EscapeCSVField(values[0]);
      ReadEscaped(values[0], t);
      assert TextAll(values) == [Text(values[0])];
    } else {
      var tail := EncodeRecord(values[1..]) + t;
      EncodeCons(values, t);
      ReadEscaped(values[0], "," + tail);
      ReadRecordComma(EscapeCSVField(values[0]) + ("," + tail), Text(values[0]), tail);
      ReadEncodedRecord(values[1..], t);
      TextCons(values);
    }
  }

  /** A record of several fields is its first field, a comma and the rest. */
  lemma EncodeCons(values: seq<Option<string>>, t: string)
    requires |values| > 1
    ensures EncodeRecord(values) + t ==
            EscapeCSVField(values[0]) + ("," + (EncodeRecord(values[1..]) + t))
  {
    var escaped := EscapeAll(values);
    assert escaped[1..] == EscapeAll(values[1..]);
  }

  lemma TextCons(values: seq<Option<string>>)
    requires |values| > 0
    ensures TextAll(values) == [Text(values[0])] + TextAll(values[1..])
  {
  }

  /** A field followed by a comma starts a record that goes on with the
      fields after the comma. */
  lemma ReadRecordComma(s: string, f: string, more: string)
    requires ReadField(s) == Some((f, "," + more))
    ensures ReadRecord(s) ==
      match ReadRecord(more)
      case None => None
      case Some((fields, next)) => Some(([f] + fields, next))
  {
    assert ("," + more)[1..] == more;
  }

  /** A written file reads back as every record's text, one record per
      line written. */
  lemma {:induction false} ReadEncodedDocument(records: seq<seq<Option<string>>>)
    requires |records| > 0
    requires forall i :: 0 <= i < |records| ==> |records[i]| > 0
    ensures ReadCsv(EncodeDocument(records)) == Some(TextRecords(records))
    decreases |records|
  {
    var lines := EncodeAll(records);
    if |records| == 1 {
      assert EncodeDocument(records) == EncodeRecord(records[0]) + [];
      ReadEncodedRecord(records[0], []);
      assert TextRecords(records) == [TextAll(records[0])];
    } else {
      assert lines[1..] == EncodeAll(records[1..]);
      var tail := EncodeDocument(records[1..]);
      assert EncodeDocument(records) == EncodeRecord(records[0]) + ("\n" + tail);
      ReadEncodedRecord(records[0], "\n" + tail);
      assert ("\n" + tail)[1..] == tail;
      ReadEncodedDocument(records[1..]);
      assert TextRecords(records) == [TextAll(records[0])] + TextRecords(records[1..]);
    }
  }

  function SomeAll(values: seq<string>): (r: seq<Option<string>>)
    ensures |r| == |values|
    ensures forall i :: 0 <= i < |r| ==> r[i] == Some(values[i])
    decreases |values|
  {
    if |values| == 0 then [] else [Some(values[0])] + SomeAll(values[1..])
  }

  /** Joining fields that need no quoting is writing them escaped. */
  lemma {:induction false} PlainJoin(values: seq<string>)
    requires forall i :: 0 <= i < |values| ==> !NeedsQuoting(values[i])
    ensures Join(',', values) == EncodeRecord(SomeAll(values))
    decreases |values|
  {
    var escaped := EscapeAll(SomeAll(values));
    assert escaped == values;
  }
}
