# GDPR obfuscator core in Dafny

This project models the core of the GDPR obfuscator, `src/obfuscator.py`. The obfuscator takes an object-store locator (`s3://bucket/key`) and a list of PII field names. It fetches the object. For a CSV object it replaces the value of every requested column with `***`. The model has four parts, plus a module of string helpers:

- `Locator`: `get_bucket_and_key`. The locator goes through Python's `urlparse(..., allow_fragments=False)`. The network location is the bucket. The path is the key, with every leading `/` removed. The model includes these parts of `urlparse`: the scheme rule, the netloc delimiters, the query split, and the `;params` split for the schemes that use it. The rest of `urlparse` is under "## Left out".
- `Format`: `get_data_type` and `InvalidDataType`. The format is the text after the last `.` of the key. Only `csv`, `json` and `parquet` are accepted.
- `Masking`: `obfuscate_csv`, on a parsed table (a header plus rows of cells). `ObfuscateCsv` is a method with the source's nested loops. It is proved equal to the function `Obfuscate`, and the properties below are proved about `Obfuscate`.
- `Orchestrator`: `obfuscator`. It splits the locator, classifies the key, looks the object up, and masks it if it is `csv`. The request arrives already decoded. The object store is a map from (bucket, key) to a parsed document.
- `Text`: the `lstrip`, `split` and `join` calls of the code; the `find`/`rfind` searches made inside `urlparse`; and ASCII lower-casing, which the tests expect of the masking step. `Split` and `Join` come with both round-trip lemmas.

This revision of `obfuscate_csv` and `obfuscator` does not do what its docstring and tests describe (see "## Findings" and the comments in `masking.dfy` and `orchestrator.dfy`). The model follows the documented and tested behaviour:

- matching is case-insensitive;
- the output header is lower-cased;
- an unmatched field is reported and skipped;
- the client is actually created;
- the logger is given a valid level (src/obfuscator.py:137), and the text is read line by line (src/obfuscator.py:141).

Two behaviours of `get_bucket_and_key` are easy to misread. The model follows the code in both:

- The key loses every leading `/` (`lstrip("/")`), not exactly one. `S3Locator` covers `s3://b//k`.
- A locator without a scheme is not turned into `("", "")` in general. For text with no `:`, `?` or `;`, with no tab, CR or LF, and that starts neither with `//` nor with a space or control character, the bucket is empty and the key is the text less its leading `/` characters (`NoSchemeNoBucket`). Besides the empty string, inputs such as `/` (`SlashOnlyIsEmpty`), `///`, `?x` and `s3://` (`EmptyNetlocIsEmpty`) also give `("", "")`.

## Model

| member | source | states |
|---|---|---|
| `Text.Lower` | testing/test_obfuscator.py:84-91 | ASCII `lower()`: same length, each upper-case letter becomes its lower-case letter, and every other character is unchanged |
| `Text.LStrip` | src/obfuscator.py:60 | `lstrip("/")`: the result is a suffix of the input that does not start with `/`, and everything removed before it was `/` |
| `Text.Split` | src/obfuscator.py:76 | `split(".")` never gives an empty list, and no piece contains the separator |
| `Text.JoinSplit` | src/obfuscator.py:76 | joining the pieces of a split gives back the original string |
| `Text.SplitJoin` | src/obfuscator.py:80 | splitting a join of separator-free pieces gives back the pieces |
| `Locator.GetBucketAndKey` | src/obfuscator.py:49-60 | the bucket never contains `/`, `?` or `#`; the key never starts with `/`; the empty locator gives `("", "")` |
| `Locator.SplitSchemeAt` | src/obfuscator.py:59 | urlparse takes a scheme name (a letter, then letters, digits, `+-.`) and a following `:` as the scheme, lower-cased |
| `Locator.SplitSchemeNone` | src/obfuscator.py:59 | text without `:` has an empty scheme and is kept whole |
| `Locator.SplitNetlocAt` | src/obfuscator.py:59 | after `//`, the netloc runs up to the end of the text or the first `/`, `?` or `#` |
| `Locator.UrlParseOf` | src/obfuscator.py:59 | when the text after the netloc holds no query and no parameters, that text is the path |
| `Locator.S3Locator` | src/obfuscator.py:59-60 | `scheme://B/K`, where B is ASCII with no `/`, `?`, `#`, `[`, `]`, and K has no `?` (and no `;` for schemes that use params), and neither holds a tab, CR or LF, gives `(B, K without its leading slashes)` |
| `Locator.BucketOnly` | src/obfuscator.py:59-60 | `scheme://B`, with B as in `S3Locator`, gives `(B, "")` |
| `Locator.NoSchemeNoBucket` | src/obfuscator.py:59-60 | a locator with no `:`, `?`, `;`, no tab, CR or LF, no leading `//` and no leading space or control character gives an empty bucket, and the text without its leading slashes is the key |
| `Locator.SlashOnlyIsEmpty` | src/obfuscator.py:59-60 | `/` gives `("", "")` |
| `Locator.EmptyNetlocIsEmpty` | src/obfuscator.py:59-60 | `s3://` gives `("", "")` |
| `Locator.ExampleLocator` | testing/test_obfuscator.py:100-104 | `s3://gdpr-obfuscator-data/new-data/file2.csv` gives `("gdpr-obfuscator-data", "new-data/file2.csv")` |
| `Format.ExtensionAfterLastDot` | src/obfuscator.py:76 | `key.split(".")[-1]` is exactly the text after the last `.`, or the whole key when it has no `.` |
| `Format.ExtensionHasNoDot` | src/obfuscator.py:76 | the extension never contains a `.` |
| `Format.GetDataType` | src/obfuscator.py:70-83 | succeeds iff the extension is one of `csv`, `json`, `parquet`, and the format it returns has exactly that name; otherwise fails with `InvalidDataType` carrying the fixed message |
| `Format.AllowedNamesJoined` | src/obfuscator.py:75-80 | the allowed names joined with `,` are `csv,json,parquet` |
| `Format.ErrorMessageText` | src/obfuscator.py:79-81 | the message is ` Supported data types are csv,json,parquet only` (with the f-string's leading space) |
| `Format.ErrorMessageHoldsSupportedList` | testing/test_obfuscator.py:144-147 | the message contains the text the test looks for |
| `Format.ExtensionOf` | src/obfuscator.py:76 | the extension of `before.after` is `after` when `after` has no `.` |
| `Format.ExtensionOfDotless` | src/obfuscator.py:76 | a key without `.` is its own extension |
| `Format.ExampleCsvKey` | testing/test_obfuscator.py:120-125 | `new-data/file2.csv` is classified `csv` |
| `Format.ExampleKeyWithoutExtension` | testing/test_obfuscator.py:129-133 | `new-data/file2` fails with `InvalidDataType` |
| `Format.ExampleTxtKey` | testing/test_obfuscator.py:139-147 | `new-data/file2.txt` fails with `InvalidDataType` and its message |
| `Format.ExampleUpperCaseExtension` | src/obfuscator.py:75-78 | classification is case-sensitive: `report.CSV` is refused |
| `Format.ExampleLastExtension` | src/obfuscator.py:76-78 | only the last extension counts: `archive.csv.gz` is refused |
| `Format.ExampleEarlierExtension` | src/obfuscator.py:76-78 | `archive.gz.csv` is `csv` |
| `Masking.ObfuscateCsv` | src/obfuscator.py:126-159 | the nested row/field loops, which overwrite cells of each row in place, give exactly `Obfuscate`: the header lower-cased; a cell becomes `***` iff its lower-cased column name equals the lower-cased name of a requested field, and is otherwise unchanged; rows in the same order; the empty document stays empty. The reported fields are exactly `Unmatched` |
| `Masking.MaskCells` | src/obfuscator.py:150-152 | the row's cells are overwritten in place so that the row becomes exactly the masked row: `***` in each column whose lower-cased name is requested, the old cell elsewhere |
| `Masking.FindUnmatched` | src/obfuscator.py:132 | returns exactly `Unmatched`: the requested fields that name no column, in request order |
| `Masking.Unmatched` | src/obfuscator.py:132 | the reported fields are exactly the requested fields whose lower-cased name is no lower-cased column name, and there are no more of them than requested; an empty document reports nothing |
| `Masking.EmptyDocument` | src/obfuscator.py:145-146 | an empty document masks to the empty document for any field list |
| `Masking.ObfuscatePreservesShape` | src/obfuscator.py:148-158 | masking keeps the kind of document, the number of columns and rows, and every row's length; rectangular stays rectangular |
| `Masking.ObfuscateCell` | src/obfuscator.py:148-153 | each output header name is the input name lower-cased; a cell is `***` when that output name is requested, and the input cell otherwise |
| `Masking.ObfuscateIdempotent` | src/obfuscator.py:148-158 | masking an already masked document with the same fields changes nothing |
| `Masking.CaseInsensitive` | testing/test_obfuscator.py:250-257 | two headers that agree after lower-casing, and field lists with the same lower-cased names (in any order, with repeats), give the same output |
| `Masking.UnmatchedFieldIgnored` | src/obfuscator.py:132 | inserting a field that names no column, anywhere in the list, leaves the output unchanged, and that field is reported |
| `Masking.ExampleMasking` | testing/test_obfuscator.py:239-244 | masking `name`, `country` in the test table gives the expected table |
| `Masking.ExampleMaskingUpperCase` | testing/test_obfuscator.py:250-257 | the header `ID,NAME,SURNAME,COUNTRY` gives the same expected table |
| `Masking.ExampleUnmatchedField` | testing/test_obfuscator.py:269-286 | adding `wrong_column_name` gives the same table and reports exactly that field |
| `Masking.ObfuscateAsWritten` | src/obfuscator.py:148-156 | lines 148-156 as written, on a parsed table with lines 137 and 141 corrected: every row comes back unchanged and the header keeps its case |
| `Masking.ObfuscateCsvAsWritten` | src/obfuscator.py:137 | as written, every call fails: `setLevel` is given the function `logging.info` and raises TypeError |
| `Masking.AsWrittenFailsOnEmptyDocument` | src/obfuscator.py:137 | as written, even the empty document fails, where the corrected masking returns the empty document |
| `Masking.AsWrittenMissesTestExpectation` | src/obfuscator.py:151 | with lines 137 and 141 corrected but line 151 as written, the test table does not give the expected result; the corrected `Obfuscate` does |
| `Orchestrator.Obfuscator` | src/obfuscator.py:9-46 | a result is produced only for a key classified `csv` whose object is in the store |
| `Orchestrator.UnsupportedBeforeFetch` | src/obfuscator.py:36-41 | an unsupported extension fails with `InvalidDataType` before the store is read, whatever the store holds |
| `Orchestrator.CsvLocator` | src/obfuscator.py:36-44 | for `scheme://B/P` within the subset of `S3Locator`, with a `csv` key K (P without its leading slashes), the result is the masked stored document; when (B, K) is absent, it is the store's error |
| `Orchestrator.NamedFormatsNotMasked` | src/obfuscator.py:43-46 | a stored `json` or `parquet` object fails with `NotMasked` (the unbound `pii_masked`) |
| `Orchestrator.ExampleRequest` | testing/test_obfuscator.py:294-314 | the test request on the test store gives the expected masked table |
| `Orchestrator.ObfuscatorAsWritten` | src/obfuscator.py:39-41 | as written, the call never produces a result: every key that passes classification fails because no client was created |
| `Orchestrator.AsWrittenFailsExampleRequest` | src/obfuscator.py:39 | as written, the test request fails; the corrected `Obfuscator` gives a result |

## Left out

- `init_s3_client` (src/obfuscator.py:86-102) and `get_data` (src/obfuscator.py:105-123) are foreign SDK calls. They are replaced by a map lookup. The SDK's `NoSuchKey`/`NoSuchBucket` errors become the single failure `NoSuchObject`. The `ConnectionRefusedError` wrapping is not modelled.
- The UTF-8 decode of the fetched object, and any encoding of the result to bytes, are left out. The orchestrator returns the masked document.
- Logging setup and output, and the stray `print` (src/obfuscator.py:29-33, 115-119, 135-136, 138-139, 143), are side effects on global state. Line 137 is not a side effect: it raises, and is a finding below. Unmatched-field warnings are returned as a list instead.
- `json.loads` of the request envelope (src/obfuscator.py:35) and its `KeyError` are left out. The request arrives already decoded.
- The CSV text layer is library code. Line 141 hands the text itself to `csv.DictReader`, which then reads one character per line; the model starts from the parsed table that `csv.DictReader(StringIO(data))` would give. Also library code: `csv.DictReader`/`DictWriter`, quoting, line terminators, blank-line skipping, and the `restkey`/`restval` handling of ragged rows. A document is either empty (no header line) or a header with rows.
- Masking.ObfuscateCsv: cells are positional. The model matches the dictionary-based source only for rectangular rows under distinct lower-cased column names. With a repeated column name, `DictWriter` writes one value into every copy; with ragged rows, it raises or pads.
- Masking.Unmatched: the docstring promises a warning for each unmatched field, but the code never logs one, while the tests expect a WARNING `pii_field:'<name>' not in data`. The model returns the unmatched fields as a list, computed once per document, and logs nothing.
- Text.Lower: ASCII only. Python's Unicode `str.lower` is not modelled.
- Locator.GetBucketAndKey: several `urlsplit` behaviours are not modelled: stripping of leading C0 control characters and spaces, removal of tab/CR/LF, the `ValueError` for unbalanced or invalid `[`/`]` in the netloc, and the NFKC check on non-ASCII netlocs. The scheme rule follows current CPython (the first character must be an ASCII letter). The lemmas that state the result (`S3Locator`, `BucketOnly`, `NoSchemeNoBucket`, `CsvLocator`) exclude the inputs these behaviours touch (they require an ASCII bucket, no tab, CR or LF, no `[` or `]` in the bucket, and no leading space or control character), so they hold of `urlparse` itself.
- `src/example_obfuscator.py` is an argparse command line that prints to standard output.
- The 1 MB timing test (testing/test_obfuscator.py:343-378) is a performance check, not a functional property.

## Findings

| source | as written | input that shows it | evidently intended | confidence | as-written member | corrected member |
|---|---|---|---|---|---|---|
| src/obfuscator.py:137 | `logger.setLevel(logging.info)` passes a function where a level is expected, so `setLevel` raises TypeError on every call | the empty document with no fields: it fails instead of returning the empty result | `logger.setLevel(logging.INFO)` | high (not executed) | `Masking.AsWrittenFailsOnEmptyDocument` | `Masking.ObfuscateCsv` |
| src/obfuscator.py:151 | `input_csv_dict.fieldnames == field` compares the list of column names with one field name, so no cell is ever masked and the header keeps its case | with lines 137 and 141 corrected, on the parsed test table with header `id,name,surname,country` and fields `name`, `country`: `test_name1` is returned unmasked | mask every cell whose column's lower-cased name equals a requested field's lower-cased name, and lower-case the header | high (not executed) | `Masking.AsWrittenMissesTestExpectation` | `Masking.ObfuscateCsv` |
| src/obfuscator.py:39 | `s3 = init_s3_client` binds the function instead of calling it, so `client.get_object` at line 121 raises AttributeError | request `s3://test_bucket/some_folder/file.csv` with `name`, `country`: it fails with `NoClient` | call `init_s3_client()` and fetch the object | high (not executed) | `Orchestrator.AsWrittenFailsExampleRequest` | `Orchestrator.Obfuscator` |
