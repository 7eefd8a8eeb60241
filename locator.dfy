/** get_bucket_and_key (src/obfuscator.py:49-60): an object-store locator
    `scheme://bucket/key` is split with Python's `urlparse(..., allow_fragments=False)`;
    the network location is the bucket and the path, with every leading `/` removed,
    is the key. The part of `urlparse` that this needs is modelled here. */
module Locator {
  import opened Text

  /** Characters allowed in a URL scheme after its first letter. */
  predicate IsSchemeChar(c: char)
  {
    IsAsciiLetter(c) || '0' <= c <= '9' || c == '+' || c == '-' || c == '.'
  }

  /** Schemes for which `urlparse` cuts `;parameters` off the path ('' is the empty scheme). */
  const USES_PARAMS: seq<string> :=
    ["", "ftp", "hdl", "prospero", "http", "imap", "https", "shttp", "rtsp",
     "rtsps", "rtspu", "sip", "sips", "mms", "sftp", "tel"]

  /** The fields of urlparse's result that get_bucket_and_key reads or that decide them. */
  datatype ParseResult = ParseResult(scheme: string, netloc: string, path: string)

  /** A scheme name: an ASCII letter followed by letters, digits, `+`, `-` or `.`. */
  predicate IsSchemeName(s: string)
  {
    |s| > 0 && IsAsciiLetter(s[0]) && forall k :: 0 <= k < |s| ==> IsSchemeChar(s[k])
  }

  /** The text before the first `:` is a scheme when it is a non-empty scheme name. */
  predicate HasScheme(url: string)
  {
    var i := FirstOf(url, {':'});
    i < |url| && IsSchemeName(url[..i])
  }

  /** Splits off a scheme (lower-cased) and the `:` after it; otherwise the scheme is ''. */
  function SplitScheme(url: string): (string, string)
  {
    if HasScheme(url) then
      var i := FirstOf(url, {':'});
      (Lower(url[..i]), url[i + 1..])
    else ("", url)
  }

  /** After a leading `//`, the network location runs up to the first `/`, `?` or `#`. */
  function SplitNetloc(url: string): (r: (string, string))
    ensures '/' !in r.0 && '?' !in r.0 && '#' !in r.0
  {
    if |url| >= 2 && url[..2] == "//" then
      var d := FirstOf(url[2..], {'/', '?', '#'});
      (url[2..2 + d], url[2 + d..])
    else ("", url)
  }

  /** The query starts at the first `?` and is not part of the path. */
  function DropQuery(url: string): string
  {
    url[..FirstOf(url, {'?'})]
  }

  /** Parameters start at the first `;` after the last `/` (or at the first `;`). */
  function DropParams(url: string): string
  {
    var p := LastIndexOf(url, '/');
    if p >= 0 then url[..p + FirstOf(url[p..], {';'})]
    else url[..FirstOf(url, {';'})]
  }

  /** `urlparse(url, allow_fragments=False)`, restricted to scheme, netloc and path. */
  function UrlParse(url: string): ParseResult
  {
    var (scheme, afterScheme) := SplitScheme(url);
    var (netloc, afterNetloc) := SplitNetloc(afterScheme);
    var path := DropQuery(afterNetloc);
    var path' := if scheme in USES_PARAMS && ';' in path then DropParams(path) else path;
    ParseResult(scheme, netloc, path')
  }

  /** get_bucket_and_key: (netloc, path without its leading slashes). */
  function GetBucketAndKey(url: string): (r: (string, string))
    ensures '/' !in r.0 && '?' !in r.0 && '#' !in r.0
    ensures r.1 == [] || r.1[0] != '/'
    ensures url == [] ==> r == ("", "")
  {
    var o := UrlParse(url);
    (o.netloc, LStrip(o.path, '/'))
  }

  /** Tab, CR and LF: `urlsplit` deletes these characters from anywhere in the text. */
  predicate IsDeletedChar(c: char)
  {
    c == '\t' || c == '\r' || c == '\n'
  }

  predicate NoDeletedChars(s: string)
  {
    forall k :: 0 <= k < |s| ==> !IsDeletedChar(s[k])
  }

  /** A character `urlsplit` keeps in a netloc as it is: ASCII (a non-ASCII netloc is
      checked after NFKC normalisation and can be rejected with ValueError), not a
      delimiter, not deleted, and not `[` or `]`, which `urlsplit` checks as an IPv6
      literal and can reject with ValueError. */
  predicate IsPlainNetlocChar(c: char)
  {
    c as int < 128 && c != '/' && c != '?' && c != '#' && c != '[' && c != ']' && !IsDeletedChar(c)
  }

  predicate IsPlainNetloc(netloc: string)
  {
    forall k :: 0 <= k < |netloc| ==> IsPlainNetlocChar(netloc[k])
  }

  /** `scheme://bucket/key` regrouped as the scheme, a colon, `//bucket` and `/key`. */
  lemma LocatorText(scheme: string, bucket: string, key: string)
    ensures scheme + "://" + bucket + "/" + key == scheme + ":" + ("//" + bucket + ("/" + key))
    ensures scheme + "://" + bucket == scheme + ":" + ("//" + bucket)
  {
  }

  /** A scheme name followed by `:` is split off, lower-cased. */
  lemma SplitSchemeAt(scheme: string, rest: string)
    requires IsSchemeName(scheme)
    ensures SplitScheme(scheme + ":" + rest) == (Lower(scheme), rest)
  {
    var url := scheme + ":" + rest;
    var n := |scheme|;
    assert url[n] == ':';
    assert forall k :: 0 <= k < n ==> url[k] == scheme[k];
    assert FirstOf(url, {':'}) == n;
    assert url[..n] == scheme;
    assert url[n + 1..] == rest;
  }

  /** Text without `:` has no scheme. */
  lemma SplitSchemeNone(url: string)
    requires ':' !in url
    ensures SplitScheme(url) == ("", url)
  {
    assert FirstOf(url, {':'}) == |url|;
  }

  /** `//netloc` followed by the end of the text or by `/`, `?` or `#` yields that netloc. */
  lemma SplitNetlocAt(netloc: string, rest: string)
    requires '/' !in netloc && '?' !in netloc && '#' !in netloc
    requires rest == [] || rest[0] in {'/', '?', '#'}
    ensures SplitNetloc("//" + netloc + rest) == (netloc, rest)
  {
    var url := "//" + netloc + rest;
    var tail := url[2..];
    assert tail == netloc + rest;
    assert forall k :: 0 <= k < |netloc| ==> tail[k] == netloc[k] && netloc[k] !in {'/', '?', '#'};
    if rest != [] {
      assert tail[|netloc|] == rest[0];
    }
    assert FirstOf(tail, {'/', '?', '#'}) == |netloc|;
    assert url[2..2 + |netloc|] == netloc;
    assert url[2 + |netloc|..] == rest;
  }

  /** When the text after the netloc holds no query and no parameters, it is the path. */
  lemma UrlParseOf(url: string, scheme: string, afterScheme: string, netloc: string, path: string)
    requires SplitScheme(url) == (scheme, afterScheme)
    requires SplitNetloc(afterScheme) == (netloc, path)
    requires '?' !in path
    requires scheme !in USES_PARAMS || ';' !in path
    ensures UrlParse(url) == ParseResult(scheme, netloc, path)
  {
    assert FirstOf(path, {'?'}) == |path|;
    assert DropQuery(path) == path;
  }

  /** For `scheme://bucket/key`, the bucket comes back unchanged and the key loses
      every leading `/` (so `s3://b//k` gives key `k`). */
  lemma S3Locator(scheme: string, bucket: string, key: string)
    requires IsSchemeName(scheme)
    requires IsPlainNetloc(bucket)
    requires '?' !in key && NoDeletedChars(key)
    requires Lower(scheme) !in USES_PARAMS || ';' !in key
    ensures GetBucketAndKey(scheme + "://" + bucket + "/" + key) == (bucket, LStrip(key, '/'))
  {
    var url := scheme + "://" + bucket + "/" + key;
    var path := "/" + key;
    var afterScheme := "//" + bucket + path;
    assert SplitScheme(url) == (Lower(scheme), afterScheme) by {
      LocatorText(scheme, bucket, key);
      SplitSchemeAt(scheme, afterScheme);
    }
    assert SplitNetloc(afterScheme) == (bucket, path) by {
      SplitNetlocAt(bucket, path);
    }
    assert Lower(scheme) !in USES_PARAMS || ';' !in path by {
      assert ';' in path ==> ';' in key;
    }
    UrlParseOf(url, Lower(scheme), afterScheme, bucket, path);
    var o := UrlParse(url);
    assert o.netloc == bucket && o.path == path;
    assert LStrip(path, '/') == LStrip(key, '/') by {
      assert path[1..] == key;
    }
    assert GetBucketAndKey(url) == (o.netloc, LStrip(o.path, '/'));
  }

  /** `scheme://bucket` alone names the bucket with an empty key. */
  lemma BucketOnly(scheme: string, bucket: string)
    requires IsSchemeName(scheme)
    requires IsPlainNetloc(bucket)
    ensures GetBucketAndKey(scheme + "://" + bucket) == (bucket, "")
  {
    var url := scheme + "://" + bucket;
    var afterScheme := "//" + bucket;
    LocatorText(scheme, bucket, "");
    SplitSchemeAt(scheme, afterScheme);
    assert afterScheme == "//" + bucket + "";
    SplitNetlocAt(bucket, "");
    UrlParseOf(url, Lower(scheme), afterScheme, bucket, "");
  }

  /** A locator with no scheme and no leading `//` has no bucket: the whole text,
      less its leading slashes, is the key. (`urlsplit` would first drop leading
      spaces and control characters, and delete tabs, CRs and LFs.) */
  lemma NoSchemeNoBucket(url: string)
    requires ':' !in url && '?' !in url && ';' !in url
    requires NoDeletedChars(url) && (url == [] || url[0] > ' ')
    requires !(|url| >= 2 && url[..2] == "//")
    ensures GetBucketAndKey(url) == ("", LStrip(url, '/'))
  {
    SplitSchemeNone(url);
    UrlParseOf(url, "", url, "", url);
  }

  lemma ExampleLocatorText()
    ensures "s3" + "://" + "gdpr-obfuscator-data" + "/" + "new-data/file2.csv"
         == "s3://gdpr-obfuscator-data/new-data/file2.csv"
  {
    assert "s3" + "://" == "s3://";
    assert "s3://" + "gdpr-obfuscator-data" == "s3://gdpr-obfuscator-data";
    assert "s3://gdpr-obfuscator-data" + "/" == "s3://gdpr-obfuscator-data/";
    assert "s3://gdpr-obfuscator-data/" + "new-data/file2.csv"
        == "s3://gdpr-obfuscator-data/new-data/file2.csv";
  }

  /** The locator of the repository's tests. */
  lemma ExampleLocator()
    ensures GetBucketAndKey("s3://gdpr-obfuscator-data/new-data/file2.csv")
         == ("gdpr-obfuscator-data", "new-data/file2.csv")
  {
    var bucket, key := "gdpr-obfuscator-data", "new-data/file2.csv";
    assert IsSchemeName("s3") by {
      assert IsAsciiLetter('s') && IsSchemeChar('3');
    }
    assert IsPlainNetloc(bucket) && '?' !in key && NoDeletedChars(key);
    assert Lower("s3") !in USES_PARAMS by {
      assert Lower("s3") == "s3";
    }
    S3Locator("s3", bucket, key);
    ExampleLocatorText();
    assert LStrip(key, '/') == key by {
      assert key[0] != '/';
    }
  }

  /** Besides the empty text, a lone `/` gives an empty bucket and key: it has no
      scheme, and its path is stripped to nothing. */
  lemma SlashOnlyIsEmpty()
    ensures GetBucketAndKey("/") == ("", "")
  {
    assert NoDeletedChars("/") && "/"[0] > ' ';
    NoSchemeNoBucket("/");
    assert LStrip("/", '/') == "";
  }

  /** A scheme with an empty netloc and path also gives an empty bucket and key. */
  lemma EmptyNetlocIsEmpty()
    ensures GetBucketAndKey("s3://") == ("", "")
  {
    assert IsSchemeName("s3") by {
      assert IsAsciiLetter('s') && IsSchemeChar('3');
    }
    assert "s3" + "://" + "" == "s3://";
    BucketOnly("s3", "");
  }
}
