/** Hostname and naive "parent domain" extraction (src/background/domain.ts).
    WHATWG URL parsing is not modelled: a `UrlParser` is passed in and returns
    the hostname of a URL, or `None` where `new URL(url)` throws. */
module Domain {
  import opened Wrappers
  import opened Text

  type UrlParser = string -> Option<string>

  /** `extractDomain`: the lower-cased hostname, `None` when parsing fails. */
  function ExtractDomain(parse: UrlParser, url: string): (r: Option<string>)
    ensures r.None? <==> parse(url).None?
    ensures r.Some? ==> |r.value| == |parse(url).value|
    ensures r.Some? ==> forall i :: 0 <= i < |r.value| ==> !IsUpper(r.value[i])
    ensures r.Some? ==> forall i :: 0 <= i < |r.value| ==> r.value[i] == LowerChar(parse(url).value[i])
  {
    match parse(url)
    case None => None
    case Some(host) => Some(Lower(host))
  }

  /** The dot-separated labels of a hostname: `domain.split('.')`. */
  function Labels(domain: string): (parts: seq<string>)
    ensures |parts| >= 1
  {
    Split(domain, '.')
  }

  /** One more label than dots; labels hold no dot; joining restores the name. */
  lemma LabelsFacts(domain: string)
    ensures |Labels(domain)| == Count(domain, '.') + 1
    ensures forall k :: 0 <= k < |Labels(domain)| ==> '.' !in Labels(domain)[k]
    ensures Join(Labels(domain), '.') == domain
  {
    SplitLength(domain, '.');
    SplitPartsFree(domain, '.');
    JoinSplit(domain, '.');
  }

  /** The parent-domain rule applied to a non-empty hostname: the whole name
      when it has at most two labels (or is `localhost`), else its last two
      labels joined by a dot. No public-suffix list is consulted. */
  function ParentOfHost(domain: string): string
  {
    var parts := Labels(domain);
    if |parts| <= 2 || domain == "localhost" then domain
    else Join(parts[|parts| - 2..], '.')
  }

  /** `extractParentDomain`: `None` when the URL does not parse or its
      hostname is empty (the `!domain` test), else the parent-domain rule. */
  function ExtractParentDomain(parse: UrlParser, url: string): (r: Option<string>)
    ensures r.Some? ==> ExtractDomain(parse, url).Some? && ExtractDomain(parse, url).value != "" && r.value != ""
  {
    match ExtractDomain(parse, url)
    case None => None
    case Some(domain) => if domain == "" then None else Some(ParentOfHost(domain))
  }

  /** The parent domain is missing exactly when the hostname is missing or
      empty; otherwise it is the rule applied to the lower-cased hostname. */
  lemma ParentDomainNoneIff(parse: UrlParser, url: string)
    ensures ExtractParentDomain(parse, url).None? <==>
      (ExtractDomain(parse, url).None? || ExtractDomain(parse, url).value == "")
    ensures ExtractParentDomain(parse, url).Some? ==>
      ExtractParentDomain(parse, url).value == ParentOfHost(ExtractDomain(parse, url).value)
  {
  }

  /** A hostname of at most two labels is its own parent domain. */
  lemma ShortHostUnchanged(domain: string)
    requires Count(domain, '.') <= 1
    ensures ParentOfHost(domain) == domain
  {
    LabelsFacts(domain);
  }

  /** A hostname of three or more labels yields its last two labels. */
  lemma LongHostLastTwo(domain: string)
    requires Count(domain, '.') >= 2
    ensures var parts := Labels(domain); var n := |parts|;
      n >= 3 && ParentOfHost(domain) == parts[n - 2] + "." + parts[n - 1]
  {
    assert domain != "localhost" by {
      LocalhostHasNoDot();
    }
    var parts := Labels(domain);
    SplitLength(domain, '.');
    var n := |parts|;
    assert parts[n - 2..] == [parts[n - 2], parts[n - 1]];
    JoinTwo(parts[n - 2], parts[n - 1], '.');
  }

  lemma LocalhostHasNoDot()
    ensures Count("localhost", '.') == 0
  {
  }

  /** The parent domain is always a suffix of the hostname. */
  lemma ParentIsSuffix(domain: string)
    ensures var p := ParentOfHost(domain);
      |p| <= |domain| && domain[|domain| - |p|..] == p
  {
    var parts := Labels(domain);
    if !(|parts| <= 2 || domain == "localhost") {
      JoinSplit(domain, '.');
      JoinTailIsSuffix(parts, |parts| - 2, '.');
    }
  }

  /** The parent domain has at most two labels, so applying the rule to it
      changes nothing. */
  lemma ParentIdempotent(domain: string)
    ensures Count(ParentOfHost(domain), '.') <= 1
    ensures ParentOfHost(ParentOfHost(domain)) == ParentOfHost(domain)
  {
    var parts := Labels(domain);
    var p := ParentOfHost(domain);
    if |parts| > 2 && domain != "localhost" {
      var n := |parts|;
      LongHostLastTwo(domain) by {
        SplitLength(domain, '.');
      }
      assert p == parts[n - 2] + "." + parts[n - 1];
      SplitPartsFree(domain, '.');
      TwoLabelsOneDot(parts[n - 2], parts[n - 1]);
    } else if domain == "localhost" {
      LocalhostHasNoDot();
    } else {
      SplitLength(domain, '.');
    }
    ShortHostUnchanged(p);
  }

  /** Two dot-free labels joined by a dot hold exactly one dot. */
  lemma TwoLabelsOneDot(a: string, b: string)
    requires '.' !in a && '.' !in b
    ensures Count(a + "." + b, '.') == 1
  {
    NoSepCountZero(a, '.');
    NoSepCountZero(b, '.');
    CountAppend(a + ".", b, '.');
    CountAppend(a, ".", '.');
    assert Count(".", '.') == 1;
  }

  lemma {:induction false} NoSepCountZero(s: string, c: char)
    requires c !in s
    ensures Count(s, c) == 0
  {
    if s != [] {
      NoSepCountZero(s[1..], c);
    }
  }

  /** Splitting `a.b.c` with dot-free labels gives the three labels. */
  lemma ThreeLabels(a: string, b: string, c: string)
    requires '.' !in a && '.' !in b && '.' !in c
    ensures Labels(a + "." + b + "." + c) == [a, b, c]
  {
    SplitNoSep(c, '.');
    SplitAtFirstSep(b, c, '.');
    SplitAtFirstSep(a, b + "." + c, '.');
    assert a + "." + b + "." + c == a + ['.'] + (b + ['.'] + c);
  }

  /** A three-label host such as `docs.google.com` has parent `google.com`. */
  lemma ExampleSubdomain(a: string, b: string, c: string)
    requires '.' !in a && '.' !in b && '.' !in c
    ensures ParentOfHost(a + "." + b + "." + c) == b + "." + c
  {
    var d := a + "." + b + "." + c;
    ThreeLabels(a, b, c);
    LocalhostHasNoDot();
    LabelsFacts(d);
    assert d != "localhost";
    var parts := Labels(d);
    assert parts[|parts| - 2..] == [b, c];
    JoinTwo(b, c, '.');
  }

  /** `localhost` is its own parent. */
  lemma ExampleLocalhost()
    ensures ParentOfHost("localhost") == "localhost"
  {
    SplitNoSep("localhost", '.');
  }

  /** IP addresses are not special-cased: a dotted quad `w.x.y.z` such as
      `192.168.0.1` yields `y.z` (`0.1`). */
  lemma ExampleIpAddress(w: string, x: string, y: string, z: string)
    requires forall c :: c in w + x + y + z ==> IsDigit(c)
    ensures ParentOfHost(w + "." + x + "." + y + "." + z) == y + "." + z
  {
    var d := w + "." + x + "." + y + "." + z;
    assert '.' !in w && '.' !in x && '.' !in y && '.' !in z by {
      assert forall c :: c in w || c in x || c in y || c in z ==> c in w + x + y + z;
    }
    ThreeLabels(x, y, z);
    SplitAtFirstSep(w, x + "." + y + "." + z, '.');
    assert d == w + ['.'] + (x + "." + y + "." + z);
    var parts := Labels(d);
    assert parts == [w, x, y, z];
    LocalhostHasNoDot();
    LabelsFacts(d);
    assert d != "localhost";
    assert parts[|parts| - 2..] == [y, z];
    JoinTwo(y, z, '.');
  }
}
