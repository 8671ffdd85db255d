/** `FileNameUtils.getExtension`: the text after the final dot of the last path segment. */
module FileNameUtils {
  import opened Wrappers
  import opened KotlinText

  /**
   * Finds the last `/`, then the last `.` in the text from that slash on, and returns what
   * follows the dot; `None` (Kotlin `null`) when there is no slash or no dot after it.
   */
  function GetExtension(url: string): (ext: Option<string>)
    ensures '/' !in url ==> ext == None
    ensures ext.Some? ==> '.' !in ext.value && '/' !in ext.value
    ensures ext.Some? ==> |ext.value| < |url| && url == url[..|url| - |ext.value| - 1] + "." + ext.value
  {
    var slash := LastIndexOf(url, '/');
    if slash < 0 then None
    else
      var name := url[slash..];
      var dot := LastIndexOf(name, '.');
      if dot < 0 then None
      else
        assert forall j :: dot < j < |name| ==> name[j] == url[slash + j];
        Some(name[dot + 1..])
  }

  /** A non-null extension is preceded by a dot, and a slash occurs before that dot. */
  lemma ExtensionFollowsLastSegmentDot(url: string)
    requires GetExtension(url).Some?
    ensures var e := GetExtension(url).value;
            var prefix := url[..|url| - |e| - 1];
            url == prefix + "." + e && '/' in prefix
  {
    var e := GetExtension(url).value;
    var slash := LastIndexOf(url, '/');
    var name := url[slash..];
    var dot := LastIndexOf(name, '.');
    assert slash + dot == |url| - |e| - 1;
    assert name[0] == '/';
    assert dot >= 1;
    assert url[..|url| - |e| - 1][slash] == '/';
  }

  /**
   * The converse: whenever a url is some text containing a slash, a dot, and a suffix free of
   * dots and slashes, that suffix is its extension.
   */
  lemma ExtensionOfDecomposition(prefix: string, e: string)
    requires '/' in prefix && '.' !in e && '/' !in e
    ensures GetExtension(prefix + "." + e) == Some(e)
  {
    var url := prefix + "." + e;
    var slash := LastIndexOf(url, '/');
    var k :| 0 <= k < |prefix| && prefix[k] == '/';
    assert url[k] == '/';
    assert slash >= k;
    forall j | |prefix| <= j < |url| ensures url[j] != '/' {
      if j > |prefix| { assert url[j] == e[j - |prefix| - 1]; }
    }
    assert slash < |prefix|;
    var name := url[slash..];
    var dot := LastIndexOf(name, '.');
    var at := |prefix| - slash;
    assert name[at] == '.';
    forall j | at < j < |name| ensures name[j] != '.' {
      assert name[j] == e[j - at - 1];
    }
    assert dot == at;
    assert name[dot + 1..] == e;
  }

  /** A dot in an earlier segment does not count: only the last segment is looked at. */
  lemma EarlierDotIgnored(prefix: string, last: string)
    requires '/' !in last && '.' !in last
    ensures GetExtension(prefix + "/" + last) == None
  {
    var url := prefix + "/" + last;
    var slash := LastIndexOf(url, '/');
    assert url[|prefix|] == '/';
    forall j | |prefix| < j < |url| ensures url[j] != '/' && url[j] != '.' {
      assert url[j] == last[j - |prefix| - 1];
    }
    assert slash == |prefix|;
    var name := url[slash..];
    assert name == "/" + last;
    assert '.' !in name;
  }

  /** Worked examples: `x/a.tar.gz` gives `gz` and `x/a.` gives the empty extension. */
  lemma ExtensionExamples()
    ensures GetExtension("x/a.tar.gz") == Some("gz")
    ensures GetExtension("x/a.") == Some("")
  {
    assert "x/a.tar"[1] == '/' && "x/a"[1] == '/';
    ExtensionOfDecomposition("x/a.tar", "gz");
    assert "x/a.tar" + "." + "gz" == "x/a.tar.gz";
    ExtensionOfDecomposition("x/a", "");
    assert "x/a" + "." + "" == "x/a.";
  }

  /** Worked examples without extension: `a.b/c` (the dot is in an earlier segment) and `abc`. */
  lemma NoExtensionExamples()
    ensures GetExtension("a.b/c") == None
    ensures GetExtension("abc") == None
  {
    EarlierDotIgnored("a.b", "c");
    assert "a.b" + "/" + "c" == "a.b/c";
  }
}
