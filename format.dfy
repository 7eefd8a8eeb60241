/** get_data_type and InvalidDataType (src/obfuscator.py:63-83): the format of an
    object is the text after the last `.` of its key (`key.split(".")[-1]`, the
    whole key when there is no `.`), and only `csv`, `json` and `parquet` are accepted. */
module Format {
  import opened Wrappers
  import opened Text

  datatype DataType = Csv | Json | Parquet
  {
    /** The extension that names the format. */
    function Name(): string
    {
      match this
      case Csv => "csv"
      case Json => "json"
      case Parquet => "parquet"
    }
  }

  /** The exception raised for any other extension, with its message. */
  datatype InvalidDataType = InvalidDataType(message: string)

  /** `data_types_allowed`, in the source's order. */
  const DATA_TYPES_ALLOWED: seq<DataType> := [Csv, Json, Parquet]

  function AllowedNames(): (names: seq<string>)
    ensures names == ["csv", "json", "parquet"]
  {
    seq(|DATA_TYPES_ALLOWED|, i requires 0 <= i < |DATA_TYPES_ALLOWED| => DATA_TYPES_ALLOWED[i].Name())
  }

  /** The message of InvalidDataType: the allowed names joined with `,`. */
  function ErrorMessage(): string
  {
    " Supported data types are " + Join(AllowedNames(), ',') + " only"
  }

  /** `key.split(".")[-1]`. */
  function Extension(key: string): string
  {
    var parts := Split(key, '.');
    parts[|parts| - 1]
  }

  /** The extension is what follows the last `.` of the key, or the whole key. */
  lemma {:induction false} ExtensionAfterLastDot(key: string)
    ensures Extension(key) == key[LastIndexOf(key, '.') + 1..]
  {
    var p := LastIndexOf(key, '.');
    if p < 0 {
      assert '.' !in key;
      SplitWithoutSep(key, '.');
    } else {
      var before, after := key[..p], key[p + 1..];
      assert key == before + ['.'] + after;
      assert '.' !in after;
      SplitAround(before, after, '.');
      SplitWithoutSep(after, '.');
    }
  }

  /** An extension holds no `.`. */
  lemma ExtensionHasNoDot(key: string)
    ensures '.' !in Extension(key)
  {
  }

  /** get_data_type: the format named by the key's extension, or InvalidDataType. */
  function GetDataType(key: string): (r: Result<DataType, InvalidDataType>)
    ensures r.Ok? <==> Extension(key) in AllowedNames()
    ensures r.Ok? ==> r.value.Name() == Extension(key)
    ensures r.Err? ==> r.error == InvalidDataType(ErrorMessage())
  {
    var ext := Extension(key);
    if ext == "csv" then Ok(Csv)
    else if ext == "json" then Ok(Json)
    else if ext == "parquet" then Ok(Parquet)
    else Err(InvalidDataType(ErrorMessage()))
  }

  /** `",".join(data_types_allowed)`. */
  lemma {:induction false} AllowedNamesJoined()
    ensures Join(AllowedNames(), ',') == "csv,json,parquet"
  {
    var names := AllowedNames();
    assert Join(names[2..], ',') == "parquet";
    assert Join(names[1..], ',') == "json" + "," + "parquet";
    assert Join(names, ',') == "csv" + "," + ("json" + "," + "parquet");
    assert "csv" + "," + ("json" + "," + "parquet") == "csv,json,parquet";
  }

  /** The message names every allowed format. */
  lemma ErrorMessageText()
    ensures ErrorMessage() == " Supported data types are csv,json,parquet only"
  {
    AllowedNamesJoined();
  }

  /** The message holds the text the tests look for, after one leading space. */
  lemma ErrorMessageHoldsSupportedList()
    ensures ErrorMessage() == " " + "Supported data types are csv,json,parquet only"
  {
    AllowedNamesJoined();
    assert " Supported data types are " == " " + "Supported data types are ";
    assert "Supported data types are " + "csv,json,parquet"
        == "Supported data types are csv,json,parquet";
    assert "Supported data types are csv,json,parquet" + " only"
        == "Supported data types are csv,json,parquet only";
  }

  /** The extension of `before.after` is `after` when `after` holds no `.`. */
  lemma ExtensionOf(before: string, after: string)
    requires '.' !in after
    ensures Extension(before + "." + after) == after
  {
    SplitAround(before, after, '.');
    SplitWithoutSep(after, '.');
  }

  /** A key without `.` is its own extension. */
  lemma ExtensionOfDotless(key: string)
    requires '.' !in key
    ensures Extension(key) == key
  {
    SplitWithoutSep(key, '.');
  }

  /** The key of the repository's tests is a `csv` object. */
  lemma ExampleCsvKey()
    ensures GetDataType("new-data/file2.csv") == Ok(Csv)
  {
    assert "new-data/file2" + "." + "csv" == "new-data/file2.csv";
    ExtensionOf("new-data/file2", "csv");
  }

  /** A key without an extension is refused. */
  lemma ExampleKeyWithoutExtension()
    ensures GetDataType("new-data/file2") == Err(InvalidDataType(ErrorMessage()))
  {
    ExtensionOfDotless("new-data/file2");
  }

  /** A `.txt` key is refused. */
  lemma ExampleTxtKey()
    ensures GetDataType("new-data/file2.txt") == Err(InvalidDataType(ErrorMessage()))
  {
    assert "new-data/file2" + "." + "txt" == "new-data/file2.txt";
    ExtensionOf("new-data/file2", "txt");
  }

  /** Classification is case-sensitive. */
  lemma ExampleUpperCaseExtension()
    ensures GetDataType("report.CSV").Err?
  {
    assert "report" + "." + "CSV" == "report.CSV";
    ExtensionOf("report", "CSV");
  }

  /** Only the last extension counts. */
  lemma ExampleLastExtension()
    ensures GetDataType("archive.csv.gz").Err?
  {
    assert "archive.csv" + "." + "gz" == "archive.csv.gz";
    ExtensionOf("archive.csv", "gz");
  }

  /** Earlier extensions do not matter. */
  lemma ExampleEarlierExtension()
    ensures GetDataType("archive.gz.csv") == Ok(Csv)
  {
    assert "archive.gz" + "." + "csv" == "archive.gz.csv";
    ExtensionOf("archive.gz", "csv");
  }
}
