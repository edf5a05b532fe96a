/**
 * The search-URL builder (`formatSearchUrl` in server/utils.js): five ordered
 * branches on the shape of the configured base URL and on the site name.
 */
module UrlBuilder {
  import opened Wrappers
  import opened Text
  import opened UriEncoding

  /**
   * The sites whose base URL already names the search parameter, and that
   * parameter's key (with its `=`).
   */
  function ParameterKey(siteName: string): (k: Option<string>)
    ensures k.Some? ==> '$' !in k.value
  {
    if siteName == "p_bandai_usa" then Some("text=")
    else if siteName == "amazon" then Some("k=")
    else if siteName == "ebay" then Some("_nkw=")
    else None
  }

  /** The search URL for `term` on site `siteName` with configured URL `baseUrl`. */
  function FormatSearchUrl(siteName: string, baseUrl: string, term: string): string
  {
    var encoded := EncodeUriComponent(term);
    if '?' in baseUrl then
      if EndsWith(baseUrl, "=") then
        baseUrl + encoded
      else if ParameterKey(siteName).Some? then
        var key := ParameterKey(siteName).value;
        ReplaceFirst(baseUrl, key, key + encoded)
      else
        baseUrl + "&q=" + encoded
    else if EndsWith(baseUrl, "/") then
      baseUrl + encoded
    else
      baseUrl + encoded
  }

  /**
   * A base URL with a query string that ends in `=` gets the term appended
   * right after that `=`, whatever the site.
   */
  lemma FormatAfterTrailingEquals(siteName: string, baseUrl: string, term: string)
    requires '?' in baseUrl && EndsWith(baseUrl, "=")
    ensures var url := FormatSearchUrl(siteName, baseUrl, term);
            && |baseUrl| <= |url| && url[..|baseUrl|] == baseUrl
            && url[|baseUrl|..] == EncodeUriComponent(term)
            && DecodeUriComponent(url[|baseUrl|..]) == Some(term)
  {
    var url := FormatSearchUrl(siteName, baseUrl, term);
    assert url[|baseUrl|..] == EncodeUriComponent(term);
    DecodeEncode(term);
  }

  /**
   * `url` is `baseUrl` with the encoding of `term` inserted at `cut` (so the
   * inserted text decodes back to `term`),
   * every character of `baseUrl` keeping its place on either side.
   */
  predicate InsertedAt(baseUrl: string, cut: nat, url: string, term: string) {
    && cut <= |baseUrl| <= |url|
    && url[..cut] == baseUrl[..cut]
    && url[|url| - (|baseUrl| - cut)..] == baseUrl[cut..]
    && url[cut..|url| - (|baseUrl| - cut)] == EncodeUriComponent(term)
    && DecodeUriComponent(url[cut..|url| - (|baseUrl| - cut)]) == Some(term)
  }

  lemma SpliceEncoded(baseUrl: string, cut: nat, term: string)
    requires cut <= |baseUrl|
    ensures InsertedAt(baseUrl, cut, baseUrl[..cut] + EncodeUriComponent(term) + baseUrl[cut..], term)
  {
    var encoded := EncodeUriComponent(term);
    var url := baseUrl[..cut] + encoded + baseUrl[cut..];
    assert url[..cut] == baseUrl[..cut];
    assert url[|url| - (|baseUrl| - cut)..] == baseUrl[cut..];
    assert url[cut..|url| - (|baseUrl| - cut)] == encoded;
    DecodeEncode(term);
  }

  /**
   * For the three sites with a named parameter, the encoded term is inserted
   * right after the first occurrence of the key and every other character of
   * the base URL keeps its place; without the key the URL is unchanged.
   */
  lemma FormatNamedParameter(siteName: string, baseUrl: string, term: string)
    requires '?' in baseUrl && !EndsWith(baseUrl, "=") && ParameterKey(siteName).Some?
    ensures var key := ParameterKey(siteName).value;
            IndexOf(baseUrl, key).None? ==> FormatSearchUrl(siteName, baseUrl, term) == baseUrl
    ensures var key := ParameterKey(siteName).value;
            IndexOf(baseUrl, key).Some? ==>
              var i := IndexOf(baseUrl, key).value;
              && OccursAt(baseUrl, key, i)
              && (forall j :: 0 <= j < i ==> !OccursAt(baseUrl, key, j))
              && InsertedAt(baseUrl, i + |key|, FormatSearchUrl(siteName, baseUrl, term), term)
  {
    FormatIsReplace(siteName, baseUrl, term);
    ReplaceInserts(FormatSearchUrl(siteName, baseUrl, term), baseUrl, ParameterKey(siteName).value, term);
  }

  lemma FormatIsReplace(siteName: string, baseUrl: string, term: string)
    requires '?' in baseUrl && !EndsWith(baseUrl, "=") && ParameterKey(siteName).Some?
    ensures var key := ParameterKey(siteName).value;
            FormatSearchUrl(siteName, baseUrl, term) == ReplaceFirst(baseUrl, key, key + EncodeUriComponent(term))
  {
  }

  /** A URL built by `replace(key, key + encoded)` holds the encoded term right after the key's first occurrence. */
  lemma ReplaceInserts(url: string, baseUrl: string, key: string, term: string)
    requires '$' !in key
    requires url == ReplaceFirst(baseUrl, key, key + EncodeUriComponent(term))
    ensures IndexOf(baseUrl, key).None? ==> url == baseUrl
    ensures IndexOf(baseUrl, key).Some? ==>
              var i := IndexOf(baseUrl, key).value;
              && OccursAt(baseUrl, key, i)
              && (forall j :: 0 <= j < i ==> !OccursAt(baseUrl, key, j))
              && InsertedAt(baseUrl, i + |key|, url, term)
  {
    var encoded := EncodeUriComponent(term);
    EncodedIsPlain(term);
    ReplaceSplices(baseUrl, key, encoded);
    if IndexOf(baseUrl, key).Some? {
      SpliceEncoded(baseUrl, IndexOf(baseUrl, key).value + |key|, term);
    }
  }

  /** Replacing the key by itself followed by `middle` splices `middle` in after the key. */
  lemma ReplaceSplices(s: string, key: string, middle: string)
    requires '$' !in key && '$' !in middle
    ensures IndexOf(s, key).None? ==> ReplaceFirst(s, key, key + middle) == s
    ensures IndexOf(s, key).Some? ==>
              var cut := IndexOf(s, key).value + |key|;
              cut <= |s| && ReplaceFirst(s, key, key + middle) == s[..cut] + middle + s[cut..]
  {
    assert '$' !in key + middle;
    ReplaceFirstLiteral(s, key, key + middle);
    if IndexOf(s, key).Some? {
      var i := IndexOf(s, key).value;
      var cut := i + |key|;
      assert s[..cut] == s[..i] + key;
    }
  }

  lemma NoWhitespaceConcat(a: string, b: string)
    requires NoWhitespace(a) && NoWhitespace(b)
    ensures NoWhitespace(a + b)
  {
    forall i | 0 <= i < |a + b| ensures !IsWhitespace((a + b)[i]) {
      if i >= |a| { assert (a + b)[i] == b[i - |a|]; }
    }
  }

  lemma NoWhitespaceFactor(s: string, i: nat, j: nat)
    requires NoWhitespace(s) && i <= j <= |s|
    ensures NoWhitespace(s[i..j])
  {
    forall k | 0 <= k < j - i ensures !IsWhitespace(s[i..j][k]) {
      assert s[i..j][k] == s[i + k];
    }
  }

  /** Splicing white-space-free text into a white-space-free string keeps it so. */
  lemma SpliceNoWhitespace(s: string, cut: nat, middle: string)
    requires NoWhitespace(s) && NoWhitespace(middle) && cut <= |s|
    ensures NoWhitespace(s[..cut] + middle + s[cut..])
  {
    NoWhitespaceFactor(s, 0, cut);
    NoWhitespaceFactor(s, cut, |s|);
    assert s[..cut] == s[0..cut] && s[cut..] == s[cut..|s|];
    NoWhitespaceConcat(s[..cut], middle);
    NoWhitespaceConcat(s[..cut] + middle, s[cut..]);
  }

  /**
   * Whatever the builder adds to the base URL is free of white space: a
   * space in the term is sent as `%20`, so a white-space-free base URL gives
   * a white-space-free search URL.
   */
  lemma FormatAddsNoWhitespace(siteName: string, baseUrl: string, term: string)
    requires NoWhitespace(baseUrl)
    ensures NoWhitespace(FormatSearchUrl(siteName, baseUrl, term))
  {
    if '?' in baseUrl && !EndsWith(baseUrl, "=") && ParameterKey(siteName).Some? {
      NamedAddsNoWhitespace(siteName, baseUrl, term);
    } else if '?' in baseUrl && !EndsWith(baseUrl, "=") {
      ExtraAddsNoWhitespace(siteName, baseUrl, term);
    } else {
      var encoded := EncodeUriComponent(term);
      EncodedIsPlain(term);
      NoWhitespaceConcat(baseUrl, encoded);
    }
  }

  lemma NamedAddsNoWhitespace(siteName: string, baseUrl: string, term: string)
    requires NoWhitespace(baseUrl)
    requires '?' in baseUrl && !EndsWith(baseUrl, "=") && ParameterKey(siteName).Some?
    ensures NoWhitespace(FormatSearchUrl(siteName, baseUrl, term))
  {
    EncodedIsPlain(term);
    FormatIsReplace(siteName, baseUrl, term);
    ReplaceNoWhitespace(baseUrl, ParameterKey(siteName).value, EncodeUriComponent(term));
  }

  lemma ReplaceNoWhitespace(s: string, key: string, middle: string)
    requires NoWhitespace(s) && NoWhitespace(middle)
    requires '$' !in key && '$' !in middle
    ensures NoWhitespace(ReplaceFirst(s, key, key + middle))
  {
    ReplaceSplices(s, key, middle);
    if IndexOf(s, key).Some? {
      SpliceNoWhitespace(s, IndexOf(s, key).value + |key|, middle);
    }
  }

  lemma ExtraAddsNoWhitespace(siteName: string, baseUrl: string, term: string)
    requires NoWhitespace(baseUrl)
    requires '?' in baseUrl && !EndsWith(baseUrl, "=") && ParameterKey(siteName).None?
    ensures NoWhitespace(FormatSearchUrl(siteName, baseUrl, term))
  {
    var encoded := EncodeUriComponent(term);
    EncodedIsPlain(term);
    NoWhitespaceConcat(baseUrl, "&q=");
    NoWhitespaceConcat(baseUrl + "&q=", encoded);
  }

  /** Any other base URL with a query string gets `&q=` and the encoded term appended. */
  lemma FormatExtraQueryParameter(siteName: string, baseUrl: string, term: string)
    requires '?' in baseUrl && !EndsWith(baseUrl, "=") && ParameterKey(siteName).None?
    ensures var url := FormatSearchUrl(siteName, baseUrl, term);
            && |baseUrl| + 3 <= |url| && url[..|baseUrl| + 3] == baseUrl + "&q="
            && url[|baseUrl| + 3..] == EncodeUriComponent(term)
            && DecodeUriComponent(url[|baseUrl| + 3..]) == Some(term)
  {
    var url := FormatSearchUrl(siteName, baseUrl, term);
    assert url[|baseUrl| + 3..] == EncodeUriComponent(term);
    DecodeEncode(term);
  }

  /**
   * A base URL without a query string gets the encoded term appended with no
   * separator, whether or not it ends in `/` (the two branches agree).
   */
  lemma FormatPlainAppend(siteName: string, baseUrl: string, term: string)
    requires '?' !in baseUrl
    ensures var url := FormatSearchUrl(siteName, baseUrl, term);
            && |baseUrl| <= |url| && url[..|baseUrl|] == baseUrl
            && url[|baseUrl|..] == EncodeUriComponent(term)
            && DecodeUriComponent(url[|baseUrl|..]) == Some(term)
  {
    var url := FormatSearchUrl(siteName, baseUrl, term);
    assert url[|baseUrl|..] == EncodeUriComponent(term);
    DecodeEncode(term);
  }

  /**
   * The configuration of tests/utils.spec.js yields the base URL and the term
   * run together: no `/search?q=` is ever added to a bare host.
   */
  lemma BareHostExample()
    ensures FormatSearchUrl("TestSite", TestBaseUrl(), TestTerm()) == TestBaseUrl() + TestTerm()
    ensures TestBaseUrl() + TestTerm() == "https://testsite.comGundam"
  {
    TestFixtureChars();
    EncodeUnreservedIdentity(TestTerm());
    AppendsVerbatim("TestSite", TestBaseUrl(), TestTerm());
    TestUrlSpelled();
  }

  lemma TestUrlSpelled()
    ensures TestBaseUrl() + TestTerm() == "https://testsite.comGundam"
  {
  }

  /** The base URL and search term of the test configuration. */
  function TestBaseUrl(): string { "https://testsite.com" }
  function TestTerm(): string { "Gundam" }

  lemma AppendsVerbatim(siteName: string, baseUrl: string, term: string)
    requires '?' !in baseUrl && EncodeUriComponent(term) == term
    ensures FormatSearchUrl(siteName, baseUrl, term) == baseUrl + term
  {
    FormatWithoutQuery(siteName, baseUrl, term);
  }

  /** The test configuration's base URL has no `?` and its term is all unreserved characters. */
  lemma TestFixtureChars()
    ensures '?' !in TestBaseUrl()
    ensures forall i :: 0 <= i < |TestTerm()| ==> IsUnreserved(TestTerm()[i])
  {
    var base := TestBaseUrl();
    assert forall i :: 0 <= i < |base| ==> base[i] != '?';
  }

  /** A base URL without `?` is followed directly by the encoded term. */
  lemma FormatWithoutQuery(siteName: string, baseUrl: string, term: string)
    requires '?' !in baseUrl
    ensures FormatSearchUrl(siteName, baseUrl, term) == baseUrl + EncodeUriComponent(term)
  {
  }
}
