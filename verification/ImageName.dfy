/** Image references of download-image: host/org/name:tag with defaults, and the URLs printed from them. */
module ImageName {
  import opened Basics

  datatype ImageName = ImageName(host: string, org: string, name: string, tag: string)

  // strings.Split and strings.Join for one separator.

  function Split(s: string, sep: char): (bits: seq<string>)
    ensures |bits| >= 1
  {
    if s == "" then [""]
    else
      var rest := Split(s[1..], sep);
      if s[0] == sep then [""] + rest else [[s[0]] + rest[0]] + rest[1..]
  }

  function Join(bits: seq<string>, sep: char): string
    requires |bits| >= 1
  {
    if |bits| == 1 then bits[0] else bits[0] + [sep] + Join(bits[1..], sep)
  }

  function Count(s: string, c: char): nat {
    if s == "" then 0 else (if s[0] == c then 1 else 0) + Count(s[1..], c)
  }

  predicate Free(s: string, c: char) {
    c !in s
  }

  lemma {:induction false} SplitCount(s: string, sep: char)
    ensures |Split(s, sep)| == Count(s, sep) + 1
    ensures forall i :: 0 <= i < |Split(s, sep)| ==> Free(Split(s, sep)[i], sep)
  {
    if s != "" {
      SplitCount(s[1..], sep);
    }
  }

  lemma {:induction false} SplitFree(s: string, sep: char)
    requires Free(s, sep)
    ensures Split(s, sep) == [s]
  {
    if s != "" {
      SplitFree(s[1..], sep);
      assert [s[0]] + s[1..] == s;
    }
  }

  lemma {:induction false} SplitFirst(first: string, rest: string, sep: char)
    requires Free(first, sep)
    ensures Split(first + [sep] + rest, sep) == [first] + Split(rest, sep)
  {
    var s := first + [sep] + rest;
    if first == "" {
      assert s[1..] == rest;
    } else {
      assert s[1..] == first[1..] + [sep] + rest;
      SplitFirst(first[1..], rest, sep);
      assert [s[0]] + first[1..] == first;
      assert ([first[1..]] + Split(rest, sep))[1..] == Split(rest, sep);
    }
  }

  /** Splitting undoes joining when the separator is in none of the parts. */
  lemma {:induction false} SplitJoin(bits: seq<string>, sep: char)
    requires |bits| >= 1 && forall i :: 0 <= i < |bits| ==> Free(bits[i], sep)
    ensures Split(Join(bits, sep), sep) == bits
  {
    if |bits| == 1 {
      SplitFree(bits[0], sep);
    } else {
      SplitFirst(bits[0], Join(bits[1..], sep), sep);
      SplitJoin(bits[1..], sep);
    }
  }

  // NewImageName.

  const DEFAULT_HOST := "docker.io"
  const DEFAULT_ORG := "library"
  const DEFAULT_TAG := "latest"
  const DOCKER_REGISTRY := "registry-1.docker.io"

  function Parse(ref: string): Option<ImageName> {
    var bits := Split(ref, '/');
    if |bits| > 3 then None
    else
      var host := if |bits| == 3 then bits[0] else DEFAULT_HOST;
      var org := if |bits| == 1 then DEFAULT_ORG else bits[|bits| - 2];
      var imgBits := Split(bits[|bits| - 1], ':');
      if |imgBits| > 2 then None
      else
        var tag := if |imgBits| == 2 then imgBits[1] else DEFAULT_TAG;
        Some(ImageName(if host == DEFAULT_HOST then DOCKER_REGISTRY else host, org, imgBits[0], tag))
  }

  function Print(n: ImageName): string {
    Join([n.host, n.org, Join([n.name, n.tag], ':')], '/')
  }

  /** What every parsed name satisfies, and all that printing and the URLs rely on. */
  ghost predicate Plain(n: ImageName) {
    && Free(n.host, '/') && Free(n.org, '/') && Free(n.name, '/') && Free(n.tag, '/')
    && Free(n.name, ':') && Free(n.tag, ':')
    && n.host != DEFAULT_HOST
  }

  lemma {:induction false} SplitParts(s: string, sep: char, c: char, i: nat)
    requires i < |Split(s, sep)| && Free(s, c)
    ensures Free(Split(s, sep)[i], c)
    decreases |s|
  {
    if s != "" {
      assert Free(s[1..], c);
      forall j: nat | j < |Split(s[1..], sep)|
        ensures Free(Split(s[1..], sep)[j], c)
      {
        SplitParts(s[1..], sep, c, j);
      }
    }
  }

  lemma ParsedIsPlain(ref: string)
    requires Parse(ref).Some?
    ensures Plain(Parse(ref).value)
  {
    var bits := Split(ref, '/');
    SplitCount(ref, '/');
    var img := bits[|bits| - 1];
    SplitCount(img, ':');
    SplitParts(img, ':', '/', 0);
    if |Split(img, ':')| == 2 {
      SplitParts(img, ':', '/', 1);
    }
    DefaultsArePlain();
  }

  lemma DefaultsArePlain()
    ensures Free(DOCKER_REGISTRY, '/') && Free(DEFAULT_HOST, '/') && Free(DEFAULT_ORG, '/')
    ensures Free(DEFAULT_TAG, '/') && Free(DEFAULT_TAG, ':')
    ensures DOCKER_REGISTRY != DEFAULT_HOST
  {
    assert |DOCKER_REGISTRY| != |DEFAULT_HOST|;
  }

  lemma PrintParse(n: ImageName)
    requires Plain(n)
    ensures Parse(Print(n)) == Some(n)
  {
    var img := Join([n.name, n.tag], ':');
    TaggedFree(n.name, n.tag);
    SplitJoin([n.name, n.tag], ':');
    SplitJoin([n.host, n.org, img], '/');
  }

  /** Printing a parsed reference in full and parsing it again gives the same name: defaults and the rewriting
      of docker.io are stable. */
  lemma RoundTrip(ref: string)
    requires Parse(ref).Some?
    ensures Parse(Print(Parse(ref).value)) == Parse(ref)
  {
    ParsedIsPlain(ref);
    PrintParse(Parse(ref).value);
  }

  /** The part after the last slash. */
  function Last(ref: string): string {
    var bits := Split(ref, '/');
    bits[|bits| - 1]
  }

  /** Exactly the references with more than two slashes, or more than one colon after the last slash, are
      rejected. */
  lemma Rejected(ref: string)
    ensures Parse(ref).None? <==> Count(ref, '/') > 2 || Count(Last(ref), ':') > 1
  {
    SplitCount(ref, '/');
    SplitCount(Last(ref), ':');
  }

  /** The six written forms, with their defaults. A host is kept as it was written, port included, unless it
      is docker.io; with a single slash the part before it is the organisation, even if it looks like a host. */
  lemma Forms(host: string, org: string, name: string, tag: string)
    requires Free(host, '/') && Free(org, '/') && Free(name, '/') && Free(tag, '/') && Free(name, ':') && Free(tag, ':')
    ensures
      var tagged := name + ":" + tag;
      var hub := "registry-1.docker.io";
      var resolved := if host == "docker.io" then hub else host;
      && Parse(name) == Some(ImageName(hub, "library", name, "latest"))
      && Parse(tagged) == Some(ImageName(hub, "library", name, tag))
      && Parse(org + "/" + name) == Some(ImageName(hub, org, name, "latest"))
      && Parse(org + "/" + tagged) == Some(ImageName(hub, org, name, tag))
      && Parse(host + "/" + org + "/" + name) == Some(ImageName(resolved, org, name, "latest"))
      && Parse(host + "/" + org + "/" + tagged) == Some(ImageName(resolved, org, name, tag))
  {
    TaggedFree(name, tag);
    var tagged := Join([name, tag], ':');
    JoinTwo(name, tag, ':');
    JoinTwo(org, name, '/');
    JoinTwo(org, tagged, '/');
    JoinThree(host, org, name, '/');
    JoinThree(host, org, tagged, '/');
    SplitFree(name, ':');
    SplitJoin([name, tag], ':');
    SplitFree(name, '/');
    SplitFree(tagged, '/');
    SplitJoin([org, name], '/');
    SplitJoin([org, tagged], '/');
    SplitJoin([host, org, name], '/');
    SplitJoin([host, org, tagged], '/');
  }

  lemma JoinTwo(a: string, b: string, sep: char)
    ensures Join([a, b], sep) == a + [sep] + b
  {
    assert [a, b][1..] == [b];
  }

  lemma JoinThree(a: string, b: string, c: string, sep: char)
    ensures Join([a, b, c], sep) == a + [sep] + b + [sep] + c
  {
    assert [a, b, c][1..] == [b, c];
    JoinTwo(b, c, sep);
  }

  /** The full form as text. */
  lemma PrintText(n: ImageName)
    ensures Print(n) == n.host + "/" + n.org + "/" + (n.name + ":" + n.tag)
  {
    JoinTwo(n.name, n.tag, ':');
    JoinThree(n.host, n.org, Join([n.name, n.tag], ':'), '/');
  }

  lemma TaggedFree(name: string, tag: string)
    requires Free(name, '/') && Free(tag, '/')
    ensures Free(Join([name, tag], ':'), '/')
  {
    assert [name, tag][1..] == [tag] && Join([tag], ':') == tag;
    assert Join([name, tag], ':') == name + [':'] + tag;
  }

  // URLs.

  function ManifestURL(n: ImageName): string {
    Join(["https:", "", n.host, "v2", n.org, n.name, "manifests", n.tag], '/')
  }

  /** Different image names are never fetched from one manifest URL. */
  lemma ManifestURLInjective(a: string, b: string)
    requires Parse(a).Some? && Parse(b).Some?
    requires ManifestURL(Parse(a).value) == ManifestURL(Parse(b).value)
    ensures Parse(a) == Parse(b)
  {
    ParsedIsPlain(a);
    ParsedIsPlain(b);
    URLParts(Parse(a).value);
    URLParts(Parse(b).value);
  }

  /** The parts of the URL that a manifest is fetched from. */
  lemma URLParts(n: ImageName)
    requires Plain(n)
    ensures Split(ManifestURL(n), '/') == ["https:", "", n.host, "v2", n.org, n.name, "manifests", n.tag]
  {
    var bits := ["https:", "", n.host, "v2", n.org, n.name, "manifests", n.tag];
    assert '/' !in "https:" && '/' !in "" && '/' !in "v2" && '/' !in "manifests";
    SplitJoin(bits, '/');
  }
}
