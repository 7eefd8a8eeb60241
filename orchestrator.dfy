/** obfuscator (src/obfuscator.py:9-46): split the locator, classify the key's format,
    fetch the object, and mask it when it is a `csv` object.

    The JSON request envelope arrives already decoded (json.loads, line 35), and the
    object store is a map from (bucket, key) to the object's parsed contents in place
    of the S3 client and get_data (lines 86-123).

    The result is the masked document; encoding it to CSV text or bytes is not part of
    this model. As written, line 46 returns the `str` that obfuscate_csv builds (get_data
    decodes the object at line 123), while the tests expect `bytes`; and for `json` and
    `parquet` keys line 46 reads `pii_masked`, which was never assigned, and raises
    UnboundLocalError (the NotMasked failure here). */
module Orchestrator {
  import opened Wrappers
  import opened Text
  import opened Locator
  import opened Format
  import opened Masking

  /** The decoded request: `file_to_obfuscate` and `pii_fields`. */
  datatype Request = Request(fileToObfuscate: string, piiFields: seq<string>)

  /** The objects that exist, by (bucket, key). */
  type Store = map<(string, string), Document>

  datatype Failure =
    | Unsupported(invalid: InvalidDataType)      // get_data_type raised (line 37)
    | NoSuchObject(bucket: string, key: string)  // the store's NoSuchKey / NoSuchBucket, propagated (line 41)
    | NotMasked(dataType: DataType)              // json / parquet: pii_masked is never bound (line 46)
    | NoClient                                   // only as written: get_object on a function (lines 39-41)

  /** obfuscator with a working client: classification comes before the fetch, and only a
      `csv` object yields a result. */
  function Obfuscator(request: Request, store: Store): (r: Result<Document, Failure>)
    ensures r.Ok? ==> GetDataType(GetBucketAndKey(request.fileToObfuscate).1) == Ok(Csv)
    ensures r.Ok? ==> GetBucketAndKey(request.fileToObfuscate) in store
  {
    var (bucket, key) := GetBucketAndKey(request.fileToObfuscate);
    match GetDataType(key)
    case Err(invalid) => Err(Unsupported(invalid))
    case Ok(dataType) =>
      if (bucket, key) !in store then Err(NoSuchObject(bucket, key))
      else if dataType == Csv then Ok(Obfuscate(store[(bucket, key)], request.piiFields))
      else Err(NotMasked(dataType))
  }

  /** obfuscator as written: line 39 binds `s3` to the function init_s3_client instead of
      calling it, so get_data's `client.get_object` (line 121) raises AttributeError for
      every key that passes classification. */
  function ObfuscatorAsWritten(request: Request, store: Store): (r: Result<Document, Failure>)
    ensures r.Err?
    ensures GetDataType(GetBucketAndKey(request.fileToObfuscate).1).Ok? ==> r == Err(NoClient)
  {
    var (bucket, key) := GetBucketAndKey(request.fileToObfuscate);
    match GetDataType(key)
    case Err(invalid) => Err(Unsupported(invalid))
    case Ok(_) => Err(NoClient)
  }

  /** A key with an unsupported extension fails at classification, whatever the store holds. */
  lemma UnsupportedBeforeFetch(request: Request, store1: Store, store2: Store)
    ensures GetDataType(GetBucketAndKey(request.fileToObfuscate).1).Err? ==>
      Obfuscator(request, store1) == Obfuscator(request, store2)
      && Obfuscator(request, store1) == Err(Unsupported(InvalidDataType(ErrorMessage())))
  {
  }

  /** For `scheme://bucket/path` with a `csv` key present in the store, the result is the
      masked stored document; with the key absent, the store's error. */
  lemma CsvLocator(scheme: string, bucket: string, path: string, fields: seq<string>, store: Store)
    requires IsSchemeName(scheme)
    requires IsPlainNetloc(bucket)
    requires '?' !in path && NoDeletedChars(path)
    requires Lower(scheme) !in USES_PARAMS || ';' !in path
    requires Extension(LStrip(path, '/')) == "csv"
    ensures var key := LStrip(path, '/');
      Obfuscator(Request(scheme + "://" + bucket + "/" + path, fields), store)
      == if (bucket, key) in store then Ok(Obfuscate(store[(bucket, key)], fields))
         else Err(NoSuchObject(bucket, key))
  {
    S3Locator(scheme, bucket, path);
  }

  /** `json` and `parquet` objects are classified and fetched but produce no result. */
  lemma NamedFormatsNotMasked(request: Request, store: Store)
    requires GetBucketAndKey(request.fileToObfuscate) in store
    requires Extension(GetBucketAndKey(request.fileToObfuscate).1) in ["json", "parquet"]
    ensures Obfuscator(request, store).Err? && Obfuscator(request, store).error.NotMasked?
  {
  }

  /** The bucket and object of the repository's orchestrator tests. */
  const TEST_STORE: Store := map[("test_bucket", "some_folder/file.csv") := TEST_DOCUMENT]

  const TEST_REQUEST: Request := Request("s3://test_bucket/some_folder/file.csv", ["name", "country"])

  lemma ExampleRequestText()
    ensures "s3" + "://" + "test_bucket" + "/" + "some_folder/file.csv"
         == "s3://test_bucket/some_folder/file.csv"
  {
    assert "s3" + "://" == "s3://";
    assert "s3://" + "test_bucket" == "s3://test_bucket";
    assert "s3://test_bucket" + "/" == "s3://test_bucket/";
    assert "s3://test_bucket/" + "some_folder/file.csv" == "s3://test_bucket/some_folder/file.csv";
  }

  lemma ExampleRequestLocator()
    ensures GetBucketAndKey(TEST_REQUEST.fileToObfuscate) == ("test_bucket", "some_folder/file.csv")
  {
    var bucket, key := "test_bucket", "some_folder/file.csv";
    assert IsSchemeName("s3") by {
      assert IsAsciiLetter('s') && IsSchemeChar('3');
    }
    assert IsPlainNetloc(bucket) && '?' !in key && NoDeletedChars(key);
    assert Lower("s3") !in USES_PARAMS by {
      assert Lower("s3") == "s3";
    }
    S3Locator("s3", bucket, key);
    ExampleRequestText();
    assert LStrip(key, '/') == key by {
      assert key[0] != '/';
    }
  }

  lemma ExampleRequestDataType()
    ensures GetDataType("some_folder/file.csv") == Ok(Csv)
  {
    assert "some_folder/file" + "." + "csv" == "some_folder/file.csv";
    ExtensionOf("some_folder/file", "csv");
  }

  /** End to end: the stored test document comes back with `name` and `country` masked. */
  lemma ExampleRequest()
    ensures Obfuscator(TEST_REQUEST, TEST_STORE) == Ok(TEST_EXPECTED)
  {
    ExampleRequestLocator();
    ExampleRequestDataType();
    ExampleMasking();
  }

  /** As written, the same request fails instead. */
  lemma AsWrittenFailsExampleRequest()
    ensures ObfuscatorAsWritten(TEST_REQUEST, TEST_STORE) == Err(NoClient)
    ensures Obfuscator(TEST_REQUEST, TEST_STORE).Ok?
  {
    ExampleRequestLocator();
    ExampleRequestDataType();
    ExampleRequest();
  }
}
