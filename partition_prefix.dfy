/**
 * The partitioned object key of the NYC taxi data set-up script:
 * the filename matcher `derive_s3_prefix_from_filename`, the URL-to-filename
 * split and the object-key construction of `prepare_data`.
 *
 * The matcher is the anchored pattern
 *   ^([^_]+)_tripdata_(\d{4})-(\d{2})\.parquet$
 * read with ASCII digits. As in Python without MULTILINE, `$` matches at the
 * end of the string and also just before a newline that ends it. The matcher
 * is written here as a hand parser that returns a tagged result, and `Fits`
 * states the language of the pattern independently of the parser.
 */
module PartitionPrefix {

  const Infix: string := "_tripdata_"
  const Extension: string := ".parquet"
  /** The prefix used when a filename does not fit the pattern. */
  const FallbackPrefix: string := "data/"

  /** What the matcher saw: the three capture groups, or no match. */
  datatype PrefixMatch = Matched(taxiClass: string, year: string, month: string) | Fallback

  predicate IsDigit(c: char) { '0' <= c <= '9' }

  predicate AllDigits(s: string) { forall i :: 0 <= i < |s| ==> IsDigit(s[i]) }

  /**
   * The language of the pattern: `f` is `c_tripdata_y-m.parquet` with `c`
   * non-empty and free of `_`, `y` four digits and `m` two digits.
   */
  ghost predicate Fits(f: string, c: string, y: string, m: string)
  {
    && |c| > 0 && '_' !in c
    && |y| == 4 && AllDigits(y)
    && |m| == 2 && AllDigits(m)
    && f == c + Infix + y + "-" + m + Extension
  }

  ghost predicate FitsSome(f: string)
  {
    exists c, y, m :: Fits(f, c, y, m)
  }

  /** Position of the first `_` of `s` at or after `from`, or `|s|` if there is none. */
  function FirstUnderscore(s: string, from: nat): (k: nat)
    requires from <= |s|
    ensures from <= k <= |s|
    ensures forall j :: from <= j < k ==> s[j] != '_'
    ensures k < |s| ==> s[k] == '_'
    decreases |s| - from
  {
    if from == |s| || s[from] == '_' then from else FirstUnderscore(s, from + 1)
  }

  /**
   * The match of the pattern up to `$`. `[^_]+` cannot run past the first
   * `_`, and the text from that `_` on must be exactly
   * `_tripdata_DDDD-DD.parquet` (25 characters).
   */
  function FullMatch(f: string): PrefixMatch
  {
    var k := FirstUnderscore(f, 0);
    var rest := f[k..];
    if && k > 0 && |rest| == 25
       && rest[..10] == Infix
       && AllDigits(rest[10..14]) && rest[14] == '-'
       && AllDigits(rest[15..17]) && rest[17..] == Extension
    then Matched(f[..k], rest[10..14], rest[15..17])
    else Fallback
  }

  /** The text `$` may stand after: the whole string, or all but a final newline. */
  function Chomp(f: string): string
  {
    if |f| > 0 && f[|f| - 1] == '\n' then f[..|f| - 1] else f
  }

  /** `re.match(pattern, filename)` */
  function ParseFilename(f: string): PrefixMatch
  {
    FullMatch(Chomp(f))
  }

  /** One `key=value/` partition segment. */
  function Segment(key: string, value: string): string
  {
    key + "=" + value + "/"
  }

  /**
   * The f-string `taxi_class={c}/year={y}/month={m}/` of the match branch,
   * written as its three segments, and the literal of the fallback branch.
   */
  function RenderPrefix(r: PrefixMatch): string
  {
    match r
    case Matched(c, y, m) => Segment("taxi_class", c) + Segment("year", y) + Segment("month", m)
    case Fallback => FallbackPrefix
  }

  /** `derive_s3_prefix_from_filename`: total, never fails. */
  function DerivePrefix(filename: string): string
  {
    RenderPrefix(ParseFilename(filename))
  }

  /** `url.split('/')[-1]`: the text after the last `/`, or the whole URL if it has none. */
  function LastSegment(url: string): string
  {
    if url == [] then []
    else if url[|url| - 1] == '/' then []
    else LastSegment(url[..|url| - 1]) + [url[|url| - 1]]
  }

  /** The object key `f"{table_name}/{derived_prefix}{filename}"`. */
  function ObjectKey(table: string, filename: string): string
  {
    table + "/" + DerivePrefix(filename) + filename
  }

  // ---------------------------------------------------------------------
  // The matcher against the language of the pattern

  lemma {:induction false} FirstUnderscoreIs(s: string, from: nat, k: nat)
    requires from <= k < |s| && s[k] == '_'
    requires forall j :: from <= j < k ==> s[j] != '_'
    ensures FirstUnderscore(s, from) == k
    decreases k - from
  {
    if from < k {
      FirstUnderscoreIs(s, from + 1, k);
    }
  }

  /** What the matcher returns fits the pattern. */
  lemma FullMatchSound(f: string)
    requires FullMatch(f).Matched?
    ensures Fits(f, FullMatch(f).taxiClass, FullMatch(f).year, FullMatch(f).month)
  {
    var k := FirstUnderscore(f, 0);
    var rest := f[k..];
    assert f == f[..k] + rest;
    assert rest == rest[..10] + rest[10..14] + "-" + rest[15..17] + rest[17..];
  }

  /** Every decomposition that fits the pattern is the one the matcher returns. */
  lemma FullMatchComplete(f: string, c: string, y: string, m: string)
    requires Fits(f, c, y, m)
    ensures FullMatch(f) == Matched(c, y, m)
  {
    var tail := Infix + y + "-" + m + Extension;
    assert f == c + tail;
    assert |tail| == 25;
    forall j | 0 <= j < |c| ensures f[j] != '_' {
      assert f[j] == c[j];
    }
    assert f[|c|] == tail[0] == '_';
    FirstUnderscoreIs(f, 0, |c|);
    assert f[..|c|] == c;
    assert f[|c|..] == tail;
    assert tail[..10] == Infix;
    assert tail[10..14] == y;
    assert tail[14] == '-';
    assert tail[15..17] == m;
    assert tail[17..] == Extension;
  }

  /** The strict matcher matches exactly the strings in the language of the pattern. */
  lemma FullMatchIff(f: string)
    ensures FullMatch(f).Matched? <==> FitsSome(f)
    ensures FullMatch(f).Matched? ==>
              Fits(f, FullMatch(f).taxiClass, FullMatch(f).year, FullMatch(f).month)
  {
    var r := FullMatch(f);
    if r.Matched? {
      FullMatchSound(f);
      assert Fits(f, r.taxiClass, r.year, r.month);
    } else if FitsSome(f) {
      var c, y, m :| Fits(f, c, y, m);
      FullMatchComplete(f, c, y, m);
    }
  }

  /** A fitting string ends in the `t` of `.parquet`, so `$` has no newline to skip. */
  lemma FitsChomp(f: string, c: string, y: string, m: string)
    requires Fits(f, c, y, m)
    ensures Chomp(f) == f
  {
    var head := c + Infix + y + "-" + m;
    assert f == head + Extension;
    assert f[|f| - 1] == Extension[7] == 't';
  }

  /**
   * The matcher returns the captures of the filename, or of the filename
   * without its final newline, and it matches nothing else.
   */
  lemma ParseIff(f: string, c: string, y: string, m: string)
    ensures ParseFilename(f) == Matched(c, y, m) <==>
            Fits(f, c, y, m) || (|f| > 0 && f[|f| - 1] == '\n' && Fits(f[..|f| - 1], c, y, m))
  {
    var g := Chomp(f);
    if ParseFilename(f) == Matched(c, y, m) {
      FullMatchSound(g);
    }
    if Fits(f, c, y, m) {
      FitsChomp(f, c, y, m);
      FullMatchComplete(f, c, y, m);
    } else if |f| > 0 && f[|f| - 1] == '\n' && Fits(f[..|f| - 1], c, y, m) {
      FullMatchComplete(g, c, y, m);
    }
  }

  /** A newline ending a fitting filename is skipped by `$`. */
  lemma ParseFinalNewline(f: string)
    ensures ParseFilename(f + "\n") == FullMatch(f)
  {
    assert (f + "\n")[..|f|] == f;
  }

  /** A fitting filename gives `taxi_class=<c>/year=<y>/month=<m>/`. */
  lemma DerivePrefixOnMatch(f: string, c: string, y: string, m: string)
    requires Fits(f, c, y, m)
    ensures DerivePrefix(f) == "taxi_class=" + c + "/year=" + y + "/month=" + m + "/"
  {
    FitsChomp(f, c, y, m);
    FullMatchComplete(f, c, y, m);
    RenderedMatchSpelling(c, y, m);
  }

  /** Every other filename gives the fallback, and only those do. */
  lemma DerivePrefixFallbackIff(f: string)
    ensures DerivePrefix(f) == FallbackPrefix <==> !FitsSome(Chomp(f))
  {
    FullMatchIff(Chomp(f));
    var r := ParseFilename(f);
    if r.Matched? {
        RenderedMatchFrame(r.taxiClass, r.year, r.month);
    }
  }

  // ---------------------------------------------------------------------
  // Shape of a matched prefix

  /** Number of occurrences of `ch` in `s`. */
  function CountChar(s: string, ch: char): nat
  {
    if s == [] then 0 else (if s[0] == ch then 1 else 0) + CountChar(s[1..], ch)
  }

  lemma {:induction false} CountCharAppend(a: string, b: string, ch: char)
    ensures CountChar(a + b, ch) == CountChar(a, ch) + CountChar(b, ch)
  {
    if a == [] {
      assert a + b == b;
    } else {
      assert (a + b)[1..] == a[1..] + b;
      CountCharAppend(a[1..], b, ch);
    }
  }

  lemma {:induction false} CountCharAbsent(s: string, ch: char)
    requires ch !in s
    ensures CountChar(s, ch) == 0
  {
    if s != [] {
      CountCharAbsent(s[1..], ch);
    }
  }

  /** The three segments spell the f-string of the match branch. */
  lemma RenderedMatchSpelling(c: string, y: string, m: string)
    ensures RenderPrefix(Matched(c, y, m)) == "taxi_class=" + c + "/year=" + y + "/month=" + m + "/"
  {
  }

  /** The rendered match starts with `taxi_class=` and ends with `/`, so it is not `data/`. */
  lemma RenderedMatchFrame(c: string, y: string, m: string)
    ensures var p := RenderPrefix(Matched(c, y, m));
      && |p| > 11 && p[..11] == "taxi_class=" && p[|p| - 1] == '/'
      && p != FallbackPrefix
  {
    var p := RenderPrefix(Matched(c, y, m));
    var s := Segment("taxi_class", c);
    assert p == s + (Segment("year", y) + Segment("month", m));
    assert s[..11] == "taxi_class=";
    assert p[..11] == s[..11];
    assert p[0] == 't' != FallbackPrefix[0];
  }

  /** A segment of a `/`-free key and value has exactly one `/`. */
  lemma SegmentSlashes(key: string, value: string)
    requires '/' !in key && '/' !in value
    ensures CountChar(Segment(key, value), '/') == 1
  {
    CountCharAppend(key, "=", '/');
    CountCharAppend(key + "=", value, '/');
    CountCharAppend(key + "=" + value, "/", '/');
    CountCharAbsent(key, '/');
    CountCharAbsent(value, '/');
    assert CountChar("=", '/') == 0;
    assert CountChar("/", '/') == 1;
  }

  /** The rendered match of `/`-free captures has exactly three `/`. */
  lemma RenderedMatchSlashes(c: string, y: string, m: string)
    requires '/' !in c && '/' !in y && '/' !in m
    ensures CountChar(RenderPrefix(Matched(c, y, m)), '/') == 3
  {
    var s1, s2, s3 := Segment("taxi_class", c), Segment("year", y), Segment("month", m);
    CountCharAppend(s1, s2, '/');
    CountCharAppend(s1 + s2, s3, '/');
    SegmentSlashes("taxi_class", c);
    SegmentSlashes("year", y);
    SegmentSlashes("month", m);
  }

  /** The captures of a `/`-free filename are `/`-free. */
  lemma CapturesSlashFree(f: string, c: string, y: string, m: string)
    requires Fits(f, c, y, m) && '/' !in f
    ensures '/' !in c && '/' !in y && '/' !in m
  {
    assert f == c + (Infix + y + "-" + m + Extension);
  }

  /**
   * A matched prefix starts with `taxi_class=` and ends with `/`, so it is
   * never `data/`; for a filename without `/` (every filename produced by
   * `LastSegment`) it has exactly three `/`.
   */
  lemma MatchedPrefixShape(f: string)
    requires FitsSome(Chomp(f))
    ensures var p := DerivePrefix(f);
      && |p| > 11 && p[..11] == "taxi_class=" && p[|p| - 1] == '/'
      && ('/' !in f ==> CountChar(p, '/') == 3)
      && p != FallbackPrefix
  {
    var g := Chomp(f);
    FullMatchIff(g);
    var r := ParseFilename(f);
    RenderedMatchFrame(r.taxiClass, r.year, r.month);
    if '/' !in f {
      assert g == f[..|g|];
      assert '/' !in g;
      CapturesSlashFree(g, r.taxiClass, r.year, r.month);
      RenderedMatchSlashes(r.taxiClass, r.year, r.month);
    }
  }

  // ---------------------------------------------------------------------
  // The URL split and the object key

  /**
   * The filename is the longest `/`-free suffix of the URL: it has no `/`,
   * it ends the URL, and it is the whole URL or preceded by a `/`.
   */
  lemma {:induction false} LastSegmentSpec(url: string)
    ensures var f := LastSegment(url);
      && '/' !in f
      && |f| <= |url| && f == url[|url| - |f|..]
      && (|f| < |url| ==> url[|url| - |f| - 1] == '/')
  {
    if url != [] && url[|url| - 1] != '/' {
      var init := url[..|url| - 1];
      LastSegmentSpec(init);
      var g := LastSegment(init);
      assert LastSegment(url) == g + [url[|url| - 1]];
      assert init[|init| - |g|..] + [url[|url| - 1]] == url[|url| - |g| - 1..];
      if |g| < |init| {
        assert url[|url| - |g| - 2] == init[|init| - |g| - 1];
      }
    }
  }

  /** The filename of `a/b` is `b` when `b` has no `/`. */
  lemma {:induction false} LastSegmentAfterSlash(a: string, b: string)
    requires '/' !in b
    ensures LastSegment(a + "/" + b) == b
  {
    var u := a + "/" + b;
    if b == [] {
      assert u[|u| - 1] == '/';
    } else {
      var b' := b[..|b| - 1];
      assert u[..|u| - 1] == a + "/" + b';
      LastSegmentAfterSlash(a, b');
      assert b == b' + [b[|b| - 1]];
    }
  }

  /** The key of a filename that fits the pattern is fully partitioned. */
  lemma ObjectKeyOnMatch(table: string, filename: string, c: string, y: string, m: string)
    requires Fits(filename, c, y, m)
    ensures ObjectKey(table, filename)
            == table + "/" + ("taxi_class=" + c + "/year=" + y + "/month=" + m + "/") + filename
  {
    DerivePrefixOnMatch(filename, c, y, m);
  }

  // ---------------------------------------------------------------------
  // Worked cases

  /** The prefix of a filename spelled out from the three parts of the pattern. */
  lemma DerivePrefixOfParts(c: string, y: string, m: string, f: string, p: string)
    requires |c| > 0 && '_' !in c && |y| == 4 && AllDigits(y) && |m| == 2 && AllDigits(m)
    requires f == c + Infix + y + "-" + m + Extension
    requires p == "taxi_class=" + c + "/year=" + y + "/month=" + m + "/"
    ensures DerivePrefix(f) == p
    ensures DerivePrefix(f + "\n") == p
  {
    DerivePrefixOnMatch(f, c, y, m);
    ParseFinalNewline(f);
  }

  lemma ExampleYellow()
    ensures DerivePrefix("yellow_tripdata_2023-01.parquet") == "taxi_class=yellow/year=2023/month=01/"
  {
    assert "yellow" + Infix + "2023" + "-" + "01" + Extension == "yellow_tripdata_2023-01.parquet";
    assert "taxi_class=" + "yellow" + "/year=" + "2023" + "/month=" + "01" + "/"
           == "taxi_class=yellow/year=2023/month=01/";
    DerivePrefixOfParts("yellow", "2023", "01",
      "yellow_tripdata_2023-01.parquet", "taxi_class=yellow/year=2023/month=01/");
  }

  /** Month and year are not range-checked: month 13 is echoed verbatim. */
  lemma ExampleMonthThirteen()
    ensures DerivePrefix("yellow_tripdata_2023-13.parquet") == "taxi_class=yellow/year=2023/month=13/"
  {
    assert "yellow" + Infix + "2023" + "-" + "13" + Extension == "yellow_tripdata_2023-13.parquet";
    assert "taxi_class=" + "yellow" + "/year=" + "2023" + "/month=" + "13" + "/"
           == "taxi_class=yellow/year=2023/month=13/";
    DerivePrefixOfParts("yellow", "2023", "13",
      "yellow_tripdata_2023-13.parquet", "taxi_class=yellow/year=2023/month=13/");
  }

  /** Year 0000 and month 00 match as well. */
  lemma ExampleZeroDate()
    ensures DerivePrefix("x_tripdata_0000-00.parquet") == "taxi_class=x/year=0000/month=00/"
  {
    assert "x" + Infix + "0000" + "-" + "00" + Extension == "x_tripdata_0000-00.parquet";
    assert "taxi_class=" + "x" + "/year=" + "0000" + "/month=" + "00" + "/"
           == "taxi_class=x/year=0000/month=00/";
    DerivePrefixOfParts("x", "0000", "00",
      "x_tripdata_0000-00.parquet", "taxi_class=x/year=0000/month=00/");
  }

  /** A newline ending the filename is accepted by `$` and left out of the captures. */
  lemma ExampleFinalNewline(f: string)
    requires f == "yellow_tripdata_2023-01.parquet"
    ensures DerivePrefix(f + "\n") == "taxi_class=yellow/year=2023/month=01/"
  {
    assert "yellow" + Infix + "2023" + "-" + "01" + Extension == "yellow_tripdata_2023-01.parquet";
    assert "taxi_class=" + "yellow" + "/year=" + "2023" + "/month=" + "01" + "/"
           == "taxi_class=yellow/year=2023/month=01/";
    DerivePrefixOfParts("yellow", "2023", "01", f, "taxi_class=yellow/year=2023/month=01/");
  }

  /** A class with an underscore (the high-volume FHV files) takes the fallback. */
  lemma ExampleUnderscoreClass()
    ensures DerivePrefix("fhv_hv_tripdata_2023-01.parquet") == FallbackPrefix
  {
    var f := "fhv_hv_tripdata_2023-01.parquet";
    FirstUnderscoreIs(f, 0, 3);
    assert |f[3..]| == 28;
  }

  /** A two-digit year takes the fallback. */
  lemma ExampleShortYear()
    ensures DerivePrefix("green_tripdata_24-01.parquet") == FallbackPrefix
  {
    var f := "green_tripdata_24-01.parquet";
    FirstUnderscoreIs(f, 0, 5);
    assert |f[5..]| == 23;
  }

  /** A three-digit month takes the fallback. */
  lemma ExampleLongMonth()
    ensures DerivePrefix("yellow_tripdata_2023-001.parquet") == FallbackPrefix
  {
    var f := "yellow_tripdata_2023-001.parquet";
    FirstUnderscoreIs(f, 0, 6);
    assert |f[6..]| == 26;
  }

  /** The extension is matched case-sensitively. */
  lemma ExampleUpperCaseExtension()
    ensures DerivePrefix("yellow_tripdata_2023-01.PARQUET") == FallbackPrefix
  {
    var f := "yellow_tripdata_2023-01.PARQUET";
    FirstUnderscoreIs(f, 0, 6);
    var rest := f[6..];
    assert rest[18] == 'P' && Extension[1] == 'p';
    assert rest[17..] != Extension;
  }

  /** Trailing text after the extension takes the fallback. */
  lemma ExampleTrailingText()
    ensures DerivePrefix("yellow_tripdata_2023-01.parquet.bak") == FallbackPrefix
  {
    var f := "yellow_tripdata_2023-01.parquet.bak";
    FirstUnderscoreIs(f, 0, 6);
    assert |f[6..]| == 29;
  }

  /** The empty filename and a filename without `_` take the fallback. */
  lemma ExampleNoClass()
    ensures DerivePrefix("") == FallbackPrefix
    ensures DerivePrefix("readme.txt") == FallbackPrefix
  {
  }

  lemma SpellUrl()
    ensures '/' !in "yellow_tripdata_2023-01.parquet"
    ensures "http://x" + "/" + "yellow_tripdata_2023-01.parquet" == "http://x/yellow_tripdata_2023-01.parquet"
  {
  }

  lemma SpellKeyHead()
    ensures "nyc_taxi" + "/" + "taxi_class=yellow/year=2023/month=01/"
            == "nyc_taxi/taxi_class=yellow/year=2023/month=01/"
  {
  }

  lemma SpellKey()
    ensures "nyc_taxi/taxi_class=yellow/year=2023/month=01/" + "yellow_tripdata_2023-01.parquet"
            == "nyc_taxi/taxi_class=yellow/year=2023/month=01/yellow_tripdata_2023-01.parquet"
  {
  }

  /** The end-to-end key for one URL of the data set. */
  lemma ExampleObjectKey(url: string)
    requires url == "http://x/yellow_tripdata_2023-01.parquet"
    ensures LastSegment(url) == "yellow_tripdata_2023-01.parquet"
    ensures ObjectKey("nyc_taxi", LastSegment(url))
            == "nyc_taxi/taxi_class=yellow/year=2023/month=01/yellow_tripdata_2023-01.parquet"
  {
    SpellUrl();
    LastSegmentAfterSlash("http://x", "yellow_tripdata_2023-01.parquet");
    ExampleYellow();
    SpellKeyHead();
    SpellKey();
  }
}
