/**
 * `file_urls(baseurl, assessor)`: turns the `files` dictionary of a BOLD QC
 * assessor into a dictionary of absolute download URLs, keyed by a normalised
 * file name.
 */
module Urls {
  import opened Results
  import opened Text

  /** The metadata key that holds a file's relative URI. */
  const UriKey := "URI"

  /**
   * One item of an assessor's `files` dictionary: the file's name and its
   * metadata dictionary. The dictionary itself is a sequence of these in
   * insertion order, which is the order Python iterates it in.
   */
  datatype FileEntry = FileEntry(name: string, meta: map<string, string>)

  /** An assessor record: its identifier and its files. */
  datatype Assessor = Assessor(id: string, files: seq<FileEntry>)

  /** `key.lower().replace(' ', '_')` on one character (ASCII case mapping only). */
  function NormalizeChar(c: char): char
  {
    if c == ' ' then '_' else LowerAscii(c)
  }

  /** A key that holds neither a space nor an ASCII capital letter. */
  predicate IsNormalized(key: string)
  {
    forall i :: 0 <= i < |key| ==> key[i] != ' ' && !('A' <= key[i] <= 'Z')
  }

  /**
   * The dictionary key under which a file is published: lower-cased, with
   * every space turned into an underscore, and otherwise unchanged.
   */
  function NormalizeKey(key: string): (r: string)
    ensures |r| == |key| && IsNormalized(r)
    ensures forall i :: 0 <= i < |key| && key[i] == ' ' ==> r[i] == '_'
    ensures forall i :: 0 <= i < |key| && 'A' <= key[i] <= 'Z' ==> r[i] == key[i] + ('a' - 'A')
    ensures forall i :: 0 <= i < |key| && key[i] != ' ' && !('A' <= key[i] <= 'Z') ==> r[i] == key[i]
  {
    seq(|key|, i requires 0 <= i < |key| => NormalizeChar(key[i]))
  }

  /** Normalising is idempotent, and the normalised keys are exactly its fixed points. */
  lemma NormalizeKeyFixedPoints(key: string)
    ensures NormalizeKey(NormalizeKey(key)) == NormalizeKey(key)
    ensures NormalizeKey(key) == key <==> IsNormalized(key)
  {
    if IsNormalized(key) {
      assert forall i :: 0 <= i < |key| ==> NormalizeKey(key)[i] == key[i];
    }
  }

  /** `f'{baseurl.rstrip("/")}/{uri.lstrip("/")}'`. */
  function ResolveUrl(baseurl: string, uri: string): string
  {
    RStrip(baseurl, Slash) + "/" + LStrip(uri, Slash)
  }

  /**
   * The URL is the base without its trailing slashes, exactly one slash, then
   * the URI without its leading slashes: the piece of the base kept does not
   * end in a slash, the piece of the URI kept does not start with one, and
   * everything dropped is a slash.
   */
  lemma ResolveUrlShape(baseurl: string, uri: string)
    ensures var b, p := RStrip(baseurl, Slash), LStrip(uri, Slash);
      && ResolveUrl(baseurl, uri) == b + "/" + p
      && (b == [] || b[|b| - 1] != '/') && (p == [] || p[0] != '/')
      && |b| <= |baseurl| && b == baseurl[..|b|] && (forall i :: |b| <= i < |baseurl| ==> baseurl[i] == '/')
      && |p| <= |uri| && p == uri[|uri| - |p|..] && (forall i :: 0 <= i < |uri| - |p| ==> uri[i] == '/')
  {
    BaseKept(baseurl);
    UriKept(uri);
  }

  /** What `rstrip('/')` keeps of the base. */
  lemma BaseKept(baseurl: string)
    ensures var b := RStrip(baseurl, Slash);
      && (b == [] || b[|b| - 1] != '/')
      && |b| <= |baseurl| && b == baseurl[..|b|] && (forall i :: |b| <= i < |baseurl| ==> baseurl[i] == '/')
  {
    RStripPrefix(baseurl, Slash);
  }

  /** What `lstrip('/')` keeps of the URI. */
  lemma UriKept(uri: string)
    ensures var p := LStrip(uri, Slash);
      && (p == [] || p[0] != '/')
      && |p| <= |uri| && p == uri[|uri| - |p|..] && (forall i :: 0 <= i < |uri| - |p| ==> uri[i] == '/')
  {
    LStripSuffix(uri, Slash);
  }

  /** Extra slashes at the end of the base or at the start of the URI change nothing. */
  lemma ResolveUrlIgnoresExtraSlashes(baseurl: string, uri: string)
    ensures ResolveUrl(baseurl + "/", uri) == ResolveUrl(baseurl, uri)
    ensures ResolveUrl(baseurl, "/" + uri) == ResolveUrl(baseurl, uri)
  {
    assert (baseurl + "/")[..|baseurl|] == baseurl;
    assert ("/" + uri)[1..] == uri;
  }

  /** A base that does not end in a slash and a URI that does not start with one meet at a single slash. */
  lemma ResolveUrlClean(b: string, p: string)
    requires b == [] || b[|b| - 1] != '/'
    requires p == [] || p[0] != '/'
    ensures ResolveUrl(b + "/", "/" + p) == b + "/" + p
    ensures ResolveUrl(b, p) == b + "/" + p
  {
    assert (b + "/")[..|b|] == b;
    assert ("/" + p)[1..] == p;
    assert RStrip(b + "/", Slash) == RStrip(b, Slash) == b;
    assert LStrip("/" + p, Slash) == LStrip(p, Slash) == p;
  }

  /** The worked example: base `https://h/` and URI `/data/x` give `https://h/data/x`. */
  lemma ResolveUrlExample()
    ensures ResolveUrl("https://h/", "/data/x") == "https://h/data/x"
  {
    var b, p := "https://h", "data/x";
    assert b[|b| - 1] == 'h' && p[0] == 'd';
    ResolveUrlClean(b, p);
    assert b + "/" == "https://h/";
    assert "/" + p == "/data/x";
    assert b + "/" + p == "https://h/data/x";
  }

  /** Every file carries a `URI`, so the loop never raises. */
  predicate AllHaveUri(files: seq<FileEntry>)
  {
    forall i :: 0 <= i < |files| ==> UriKey in files[i].meta
  }

  /** The dictionary the loop has built after visiting `files`, in order. */
  function UrlsOf(baseurl: string, files: seq<FileEntry>): map<string, string>
    requires AllHaveUri(files)
    decreases |files|
  {
    if |files| == 0 then map[]
    else
      var last := files[|files| - 1];
      UrlsOf(baseurl, files[..|files| - 1])[NormalizeKey(last.name) := ResolveUrl(baseurl, last.meta[UriKey])]
  }

  /** `file_urls(baseurl, assessor)`: a `KeyError` when some file has no `URI`. */
  function FileUrlsOf(baseurl: string, assessor: Assessor): (r: Result<map<string, string>>)
    ensures r.Success? <==> AllHaveUri(assessor.files)
    ensures r.Failure? ==> r.error == KeyError(UriKey)
  {
    if AllHaveUri(assessor.files) then Success(UrlsOf(baseurl, assessor.files))
    else Failure(KeyError(UriKey))
  }

  /** Visiting one more file that has a `URI`. */
  lemma UrlsOfExtend(baseurl: string, files: seq<FileEntry>, i: nat)
    requires i < |files| && AllHaveUri(files[..i]) && UriKey in files[i].meta
    ensures AllHaveUri(files[..i + 1])
    ensures UrlsOf(baseurl, files[..i + 1])
         == UrlsOf(baseurl, files[..i])[NormalizeKey(files[i].name) := ResolveUrl(baseurl, files[i].meta[UriKey])]
  {
    assert files[..i + 1][..i] == files[..i];
    assert files[..i + 1][i] == files[i];
  }

  /** The loop of `file_urls`, filling the dictionary one file at a time. */
  method FileUrls(baseurl: string, assessor: Assessor) returns (r: Result<map<string, string>>)
    ensures r == FileUrlsOf(baseurl, assessor)
  {
    var files := assessor.files;
    var base := RStrip(baseurl, Slash);
    var urls: map<string, string> := map[];
    var i := 0;
    while i < |files|
      invariant 0 <= i <= |files|
      invariant AllHaveUri(files[..i])
      invariant urls == UrlsOf(baseurl, files[..i])
    {
      var entry := files[i];
      if UriKey !in entry.meta {
        return Failure(KeyError(UriKey));
      }
      var key := NormalizeKey(entry.name);
      var path := LStrip(entry.meta[UriKey], Slash);
      UrlsOfExtend(baseurl, files, i);
      urls := urls[key := base + "/" + path];
      i := i + 1;
    }
    assert files[..i] == files;
    return Success(urls);
  }

  /** The normalised names of some files. */
  function Names(files: seq<FileEntry>): set<string>
  {
    set i | 0 <= i < |files| :: NormalizeKey(files[i].name)
  }

  /** One more file adds exactly its own normalised name. */
  lemma NamesSnoc(files: seq<FileEntry>)
    requires |files| > 0
    ensures Names(files) == Names(files[..|files| - 1]) + {NormalizeKey(files[|files| - 1].name)}
  {
    var init := files[..|files| - 1];
    var last := NormalizeKey(files[|files| - 1].name);
    forall k | k in Names(files)
      ensures k in Names(init) || k == last
    {
      var i :| 0 <= i < |files| && NormalizeKey(files[i].name) == k;
      if i < |init| {
        assert init[i] == files[i];
      }
    }
    forall k | k in Names(init)
      ensures k in Names(files)
    {
      var i :| 0 <= i < |init| && NormalizeKey(init[i].name) == k;
      assert init[i] == files[i];
    }
  }

  /** The keys are exactly the normalised names of the files. */
  lemma {:induction false} UrlKeys(baseurl: string, files: seq<FileEntry>)
    requires AllHaveUri(files)
    ensures UrlsOf(baseurl, files).Keys == Names(files)
    decreases |files|
  {
    if |files| > 0 {
      UrlKeys(baseurl, files[..|files| - 1]);
      NamesSnoc(files);
    }
  }

  /**
   * Every key of `file_urls` is normalised (no space, no capital) and is the
   * normalised name of some file, and every file's normalised name is a key.
   */
  lemma FileUrlsKeys(baseurl: string, assessor: Assessor)
    requires FileUrlsOf(baseurl, assessor).Success?
    ensures var urls := FileUrlsOf(baseurl, assessor).value;
      && (forall k :: k in urls ==> ' ' !in k && NormalizeKey(k) == k)
      && (forall k :: k in urls ==> exists i :: 0 <= i < |assessor.files| && NormalizeKey(assessor.files[i].name) == k)
      && (forall i :: 0 <= i < |assessor.files| ==> NormalizeKey(assessor.files[i].name) in urls)
  {
    var urls := FileUrlsOf(baseurl, assessor).value;
    UrlKeys(baseurl, assessor.files);
    forall k | k in urls
      ensures ' ' !in k && NormalizeKey(k) == k
    {
      NormalizeKeyFixedPoints(k);
      var i :| 0 <= i < |assessor.files| && NormalizeKey(assessor.files[i].name) == k;
      NormalizeKeyFixedPoints(assessor.files[i].name);
    }
  }

  /**
   * Last write wins: the URL published under a key is the one of the last
   * file, in iteration order, whose name normalises to that key.
   */
  lemma {:induction false} FileUrlsLastWriteWins(baseurl: string, files: seq<FileEntry>, i: nat)
    requires AllHaveUri(files)
    requires i < |files|
    requires forall j :: i < j < |files| ==> NormalizeKey(files[j].name) != NormalizeKey(files[i].name)
    ensures NormalizeKey(files[i].name) in UrlsOf(baseurl, files)
    ensures UrlsOf(baseurl, files)[NormalizeKey(files[i].name)] == ResolveUrl(baseurl, files[i].meta[UriKey])
    decreases |files|
  {
    if i < |files| - 1 {
      var init := files[..|files| - 1];
      assert forall j :: 0 <= j < |init| ==> init[j] == files[j];
      FileUrlsLastWriteWins(baseurl, init, i);
    }
  }

  /** There are never more URLs than files: colliding names share one entry. */
  lemma {:induction false} FileUrlsSize(baseurl: string, files: seq<FileEntry>)
    requires AllHaveUri(files)
    ensures |UrlsOf(baseurl, files)| <= |files|
    decreases |files|
  {
    if |files| > 0 {
      var init := files[..|files| - 1];
      var last := files[|files| - 1];
      var m := UrlsOf(baseurl, init);
      FileUrlsSize(baseurl, init);
      var k := NormalizeKey(last.name);
      assert m[k := ResolveUrl(baseurl, last.meta[UriKey])].Keys == m.Keys + {k};
      assert |m.Keys + {k}| <= |m.Keys| + 1;
    }
  }
}
