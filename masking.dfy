/** obfuscate_csv (src/obfuscator.py:126-159) at the level of a parsed table, as its
    docstring and the repository's tests describe it: every cell whose column name
    equals a requested field, compared without regard to ASCII case, becomes `***`;
    the output header is the input header lower-cased; all other cells and the order
    of rows and columns are kept; an empty document gives an empty result; a
    requested field that names no column is reported and otherwise ignored.

    Reading and writing the CSV text (csv.DictReader / csv.DictWriter) is not part
    of this model: a document is either the empty text (no header line) or a header
    with its rows of cells.

    Where the code at src/obfuscator.py differs from that described behaviour:
    - line 137 passes the function `logging.info` to `Logger.setLevel` instead of the
      level `logging.INFO`; setLevel raises TypeError, so every call fails before the
      input is read, the empty input included (ObfuscateCsvAsWritten below);
    - line 141 hands the text itself to csv.DictReader, which then reads it one
      character per line; the model reads the document line by line, as
      `csv.DictReader(StringIO(data))` would;
    - line 151 compares the whole list of column names with one field name, which is
      never equal, so nothing is masked (ObfuscateAsWritten below);
    - the header is written as read (line 156), while the tests expect it lower-cased;
    - the docstring (line 132) promises a warning for each requested field that names no
      column, but the code never logs one (line 139 is an info message), while
      testing/test_obfuscator.py:279-286 expects a WARNING `pii_field:'<name>' not in data`;
      the model returns those fields instead (Unmatched below);
    - the tests call this operation `obfuscate_file`; the module defines it as
      `obfuscate_csv` (line 126). */
module Masking {
  import opened Wrappers
  import opened Text

  /** The literal every masked value is replaced with. */
  const MASK: string := "***"

  datatype Document = Empty | Table(header: seq<string>, rows: seq<seq<string>>)

  /** Every row has one cell per column. */
  predicate Rectangular(doc: Document)
  {
    doc.Table? ==> forall i :: 0 <= i < |doc.rows| ==> |doc.rows[i]| == |doc.header|
  }

  /** A column is masked when its lower-cased name is the lower-cased name of a requested field. */
  predicate IsPiiColumn(column: string, piiFields: seq<string>)
  {
    Lower(column) in LowerAll(piiFields)
  }

  /** One row with the cells of its requested columns replaced by the mask. */
  function MaskRow(header: seq<string>, row: seq<string>, piiFields: seq<string>): seq<string>
  {
    seq(|row|, j requires 0 <= j < |row| =>
      if j < |header| && IsPiiColumn(header[j], piiFields) then MASK else row[j])
  }

  /** The masked document: lower-cased header, every row masked, empty stays empty. */
  function Obfuscate(doc: Document, piiFields: seq<string>): Document
  {
    match doc
    case Empty => Empty
    case Table(header, rows) =>
      Table(LowerAll(header), seq(|rows|, i requires 0 <= i < |rows| => MaskRow(header, rows[i], piiFields)))
  }

  /** The requested fields that name no column, in request order: the docstring promises
      a warning for each unmatched field. Nothing is reported for an empty document. */
  function Unmatched(doc: Document, piiFields: seq<string>): (r: seq<string>)
    ensures |r| <= |piiFields|
    ensures forall f :: f in r <==> f in piiFields && doc.Table? && Lower(f) !in LowerAll(doc.header)
    decreases |piiFields|
  {
    if doc.Empty? || piiFields == [] then []
    else
      var last := piiFields[|piiFields| - 1];
      var init := Unmatched(doc, piiFields[..|piiFields| - 1]);
      assert piiFields == piiFields[..|piiFields| - 1] + [last];
      if Lower(last) in LowerAll(doc.header) then init else init + [last]
  }

  /** The body of the row loop (lines 150-152): for each requested field, the cells of
      the column with that lower-cased name become `***`, in place. */
  method MaskCells(header: seq<string>, row: array<string>, piiFields: seq<string>)
    modifies row
    ensures row[..] == MaskRow(header, old(row[..]), piiFields)
  {
    ghost var source := row[..];
    var fieldnames := LowerAll(header);
    var k := 0;
    while k < |piiFields|
      invariant 0 <= k <= |piiFields|
      invariant forall c :: 0 <= c < row.Length ==>
        row[c] == if c < |header| && IsPiiColumn(header[c], piiFields[..k]) then MASK else source[c]
    {
      var field := Lower(piiFields[k]);
      var j := 0;
      while j < |fieldnames|
        invariant 0 <= j <= |fieldnames|
        invariant forall c :: 0 <= c < row.Length ==>
          row[c] == if c < |header| && (IsPiiColumn(header[c], piiFields[..k]) || (c < j && fieldnames[c] == field))
                    then MASK else source[c]
      {
        if fieldnames[j] == field && j < row.Length {
          row[j] := MASK;
        }
        j := j + 1;
      }
      LowerAllPrefix(piiFields, k);
      k := k + 1;
    }
    assert piiFields[..|piiFields|] == piiFields;
  }

  /** The requested fields whose lower-cased name is none of the lower-cased column
      names, found by one pass over the request. */
  method FindUnmatched(doc: Document, piiFields: seq<string>) returns (unmatched: seq<string>)
    ensures unmatched == Unmatched(doc, piiFields)
  {
    unmatched := [];
    if doc.Empty? {
      return;
    }
    var fieldnames := LowerAll(doc.header);
    var k := 0;
    while k < |piiFields|
      invariant 0 <= k <= |piiFields|
      invariant unmatched == Unmatched(doc, piiFields[..k])
    {
      assert piiFields[..k + 1][..k] == piiFields[..k];
      if Lower(piiFields[k]) !in fieldnames {
        unmatched := unmatched + [piiFields[k]];
      }
      k := k + 1;
    }
    assert piiFields[..|piiFields|] == piiFields;
  }

  /** obfuscate_csv: each row is copied, masked in place by `MaskCells` and appended to
      `maskedData`; the header is written lower-cased. Also returns the requested fields
      that matched no column. */
  method ObfuscateCsv(doc: Document, piiFields: seq<string>) returns (masked: Document, unmatched: seq<string>)
    ensures masked == Obfuscate(doc, piiFields)
    ensures unmatched == Unmatched(doc, piiFields)
  {
    unmatched := FindUnmatched(doc, piiFields);
    if doc.Empty? {
      // DictReader.fieldnames is None: the empty string is returned
      return Empty, unmatched;
    }
    var header := doc.header;
    var maskedData: seq<seq<string>> := [];
    var i := 0;
    while i < |doc.rows|
      invariant 0 <= i <= |doc.rows|
      invariant |maskedData| == i
      invariant forall r :: 0 <= r < i ==> maskedData[r] == MaskRow(header, doc.rows[r], piiFields)
    {
      var source := doc.rows[i];
      var row := new string[|source|](c requires 0 <= c < |source| => source[c]);
      assert row[..] == source;
      MaskCells(header, row, piiFields);
      maskedData := maskedData + [row[..]];
      i := i + 1;
    }
    masked := Table(LowerAll(header), maskedData);
  }

  /** The empty document masks to the empty document and reports nothing. */
  lemma EmptyDocument(piiFields: seq<string>)
    ensures Obfuscate(Empty, piiFields) == Empty
    ensures Unmatched(Empty, piiFields) == []
  {
  }

  /** Masking keeps the number of rows, the length of every row and the number of columns. */
  lemma ObfuscatePreservesShape(doc: Document, piiFields: seq<string>)
    ensures Obfuscate(doc, piiFields).Table? <==> doc.Table?
    ensures doc.Table? ==> |Obfuscate(doc, piiFields).header| == |doc.header|
    ensures doc.Table? ==> |Obfuscate(doc, piiFields).rows| == |doc.rows|
    ensures doc.Table? ==> forall i :: 0 <= i < |doc.rows| ==> |Obfuscate(doc, piiFields).rows[i]| == |doc.rows[i]|
    ensures Rectangular(doc) ==> Rectangular(Obfuscate(doc, piiFields))
  {
  }

  /** Cell by cell, against the output header: a cell is the mask when its (lower-cased)
      column name is requested, and the input cell otherwise. */
  lemma ObfuscateCell(doc: Document, piiFields: seq<string>, i: nat, j: nat)
    requires Rectangular(doc) && doc.Table? && i < |doc.rows| && j < |doc.header|
    ensures Obfuscate(doc, piiFields).header[j] == Lower(doc.header[j])
    ensures IsPiiColumn(Obfuscate(doc, piiFields).header[j], piiFields) ==>
              Obfuscate(doc, piiFields).rows[i][j] == MASK
    ensures !IsPiiColumn(Obfuscate(doc, piiFields).header[j], piiFields) ==>
              Obfuscate(doc, piiFields).rows[i][j] == doc.rows[i][j]
  {
    LowerIdempotent(doc.header[j]);
  }

  /** Masking a masked document changes nothing: masked cells stay `***`, the header stays lower-case. */
  lemma ObfuscateIdempotent(doc: Document, piiFields: seq<string>)
    ensures Obfuscate(Obfuscate(doc, piiFields), piiFields) == Obfuscate(doc, piiFields)
  {
    if doc.Table? {
      var once := Obfuscate(doc, piiFields);
      var twice := Obfuscate(once, piiFields);
      LowerAllIdempotent(doc.header);
      forall j | 0 <= j < |doc.header|
        ensures IsPiiColumn(once.header[j], piiFields) == IsPiiColumn(doc.header[j], piiFields)
      {
        LowerIdempotent(doc.header[j]);
      }
      forall i | 0 <= i < |doc.rows|
        ensures twice.rows[i] == once.rows[i]
      {
      }
    }
  }

  /** Only the lower-cased column names and the set of lower-cased requested names
      matter: header `ID,NAME` masks like `id,name`, and the order or repetition of
      requested fields makes no difference. */
  lemma CaseInsensitive(header1: seq<string>, header2: seq<string>, rows: seq<seq<string>>,
                        fields1: seq<string>, fields2: seq<string>)
    requires LowerAll(header1) == LowerAll(header2)
    requires forall x :: x in LowerAll(fields1) <==> x in LowerAll(fields2)
    ensures Obfuscate(Table(header1, rows), fields1) == Obfuscate(Table(header2, rows), fields2)
  {
    assert |header1| == |header2|;
    forall j | 0 <= j < |header1|
      ensures IsPiiColumn(header1[j], fields1) == IsPiiColumn(header2[j], fields2)
    {
      assert LowerAll(header1)[j] == LowerAll(header2)[j];
    }
    var out1 := Obfuscate(Table(header1, rows), fields1);
    var out2 := Obfuscate(Table(header2, rows), fields2);
    forall i | 0 <= i < |rows|
      ensures out1.rows[i] == out2.rows[i]
    {
    }
  }

  /** A requested field that names no column is skipped: the result is the one
      without it, and it is reported as unmatched. */
  lemma UnmatchedFieldIgnored(header: seq<string>, rows: seq<seq<string>>,
                              before: seq<string>, field: string, after: seq<string>)
    requires Lower(field) !in LowerAll(header)
    ensures Obfuscate(Table(header, rows), before + [field] + after)
         == Obfuscate(Table(header, rows), before + after)
    ensures field in Unmatched(Table(header, rows), before + [field] + after)
  {
    var with := before + [field] + after;
    var without := before + after;
    assert LowerAll(with) == LowerAll(before) + [Lower(field)] + LowerAll(after);
    assert LowerAll(without) == LowerAll(before) + LowerAll(after);
    forall x | x in LowerAll(header)
      ensures x in LowerAll(with) <==> x in LowerAll(without)
    {
    }
    forall j | 0 <= j < |header|
      ensures IsPiiColumn(header[j], with) == IsPiiColumn(header[j], without)
    {
      assert Lower(header[j]) == LowerAll(header)[j];
    }
    var out1 := Obfuscate(Table(header, rows), with);
    var out2 := Obfuscate(Table(header, rows), without);
    forall i | 0 <= i < |rows|
      ensures out1.rows[i] == out2.rows[i]
    {
    }
    assert field in with;
  }

  /** Lines 148-156 of obfuscate_csv as written, on a parsed table, with lines 137 and 141
      corrected (the level `logging.INFO`, and the text read line by line). Line 151 tests `input_csv_dict.fieldnames == field`, the
      whole list of column names against one field name; Python never finds a list equal
      to a string, so line 152 never runs. Every row is written back as it was read and
      the header keeps its original case (line 156). */
  function ObfuscateAsWritten(doc: Document, piiFields: seq<string>): (r: Document)
    ensures r == doc
  {
    match doc
    case Empty => Empty
    case Table(header, rows) =>
      var written := seq(|rows|, i requires 0 <= i < |rows| => rows[i]);
      assert |written| == |rows| && forall i :: 0 <= i < |rows| ==> written[i] == rows[i];
      assert written == rows;
      Table(header, written)
  }

  /** Why obfuscate_csv as written fails. */
  datatype CsvFailure =
    | LevelNotAnInteger  // TypeError from logger.setLevel(logging.info), line 137

  /** obfuscate_csv as written, from its first statement: line 137 hands `setLevel` a
      function where a level is expected, and the TypeError it raises ends every call
      before the data is looked at. */
  function ObfuscateCsvAsWritten(doc: Document, piiFields: seq<string>): (r: Result<Document, CsvFailure>)
    ensures r.Err?
  {
    Err(LevelNotAnInteger)
  }

  /** The document of the repository's tests, its upper-case variant and the expected result
      of masking `name` and `country`. */
  const TEST_DOCUMENT: Document :=
    Table(["id", "name", "surname", "country"],
          [["1", "test_name1", "test_surname1", "test_country1"],
           ["2", "test_name2", "test_surname2", "test_country2"]])

  const TEST_DOCUMENT_UPPER: Document :=
    Table(["ID", "NAME", "SURNAME", "COUNTRY"], TEST_DOCUMENT.rows)

  const TEST_EXPECTED: Document :=
    Table(["id", "name", "surname", "country"],
          [["1", MASK, "test_surname1", MASK],
           ["2", MASK, "test_surname2", MASK]])

  lemma TestHeaderIsLowerCase()
    ensures LowerAll(TEST_DOCUMENT.header) == TEST_DOCUMENT.header
  {
    var h := TEST_DOCUMENT.header;
    forall j | 0 <= j < |h|
      ensures Lower(h[j]) == h[j]
    {
      LowerOfLowerCase(h[j]);
    }
  }

  /** Masking `name` and `country` in the test document gives the expected document. */
  lemma ExampleMasking()
    ensures Obfuscate(TEST_DOCUMENT, ["name", "country"]) == TEST_EXPECTED
  {
    var fields := ["name", "country"];
    TestHeaderIsLowerCase();
    var h := TEST_DOCUMENT.header;
    assert LowerAll(fields) == fields by {
      LowerOfLowerCase("name");
      LowerOfLowerCase("country");
    }
    assert !IsPiiColumn(h[0], fields) && IsPiiColumn(h[1], fields);
    assert !IsPiiColumn(h[2], fields) && IsPiiColumn(h[3], fields);
    var out := Obfuscate(TEST_DOCUMENT, fields);
    assert out.rows[0] == TEST_EXPECTED.rows[0];
    assert out.rows[1] == TEST_EXPECTED.rows[1];
  }

  /** The upper-case header gives exactly the same output. */
  lemma ExampleMaskingUpperCase()
    ensures Obfuscate(TEST_DOCUMENT_UPPER, ["name", "country"]) == TEST_EXPECTED
  {
    TestHeaderIsLowerCase();
    assert LowerAll(TEST_DOCUMENT_UPPER.header) == TEST_DOCUMENT.header by {
      assert Lower("ID") == "id";
      assert Lower("NAME") == "name";
      assert Lower("SURNAME") == "surname";
      assert Lower("COUNTRY") == "country";
    }
    CaseInsensitive(TEST_DOCUMENT_UPPER.header, TEST_DOCUMENT.header, TEST_DOCUMENT.rows,
                    ["name", "country"], ["name", "country"]);
    ExampleMasking();
  }

  /** An extra field `wrong_column_name` changes nothing and is reported. */
  lemma ExampleUnmatchedField()
    ensures Obfuscate(TEST_DOCUMENT, ["name", "country", "wrong_column_name"]) == TEST_EXPECTED
    ensures Unmatched(TEST_DOCUMENT, ["name", "country", "wrong_column_name"]) == ["wrong_column_name"]
  {
    TestHeaderIsLowerCase();
    LowerOfLowerCase("wrong_column_name");
    assert Lower("wrong_column_name") !in LowerAll(TEST_DOCUMENT.header);
    UnmatchedFieldIgnored(TEST_DOCUMENT.header, TEST_DOCUMENT.rows, ["name", "country"], "wrong_column_name", []);
    assert ["name", "country"] + ["wrong_column_name"] + [] == ["name", "country", "wrong_column_name"];
    assert ["name", "country"] + [] == ["name", "country"];
    ExampleMasking();
    LowerOfLowerCase("name");
    LowerOfLowerCase("country");
  }

  /** As written, even the empty document fails (line 137), where the docstring and
      testing/test_obfuscator.py:263-265 expect an empty result. */
  lemma AsWrittenFailsOnEmptyDocument()
    ensures ObfuscateCsvAsWritten(Empty, []).Err?
    ensures Obfuscate(Empty, []) == Empty
  {
  }

  /** As written, obfuscate_csv masks nothing: the test expectation is not met. */
  lemma AsWrittenMissesTestExpectation()
    ensures ObfuscateAsWritten(TEST_DOCUMENT, ["name", "country"]) != TEST_EXPECTED
    ensures Obfuscate(TEST_DOCUMENT, ["name", "country"]) == TEST_EXPECTED
  {
    assert ObfuscateAsWritten(TEST_DOCUMENT, ["name", "country"]).rows[0][1] == "test_name1";
    ExampleMasking();
  }
}

