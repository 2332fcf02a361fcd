/** Image references are compared in three places with three pieces of code: the service's
    canonical form, the Docker client's repository/tag split and the registry client's parser. */
module ImageRefs {
  import opened Strings

  /** A reference cut at its registry host and its tag; `host` is empty when there is none. */
  datatype Cut = Cut(host: string, path: seq<string>, tag: string)

  predicate IsHost(part: string) {
    !Free(part, '.') || !Free(part, ':') || part == "localhost"
  }

  predicate Hosted(parts: seq<string>) {
    |parts| > 1 && IsHost(parts[0])
  }

  /** The tag behind the last colon of the last path component, "latest" without a colon. */
  function CutTag(path: seq<string>): (r: (seq<string>, string))
    requires path != []
    ensures |r.0| == |path| && r.0[..|path| - 1] == path[..|path| - 1]
    ensures Free(r.1, ':')
  {
    var last := path[|path| - 1];
    var colon := LastIndex(last, ':');
    if colon >= 0 then (path[..|path| - 1] + [last[..colon]], last[colon + 1..]) else (path, "latest")
  }

  function CutParts(parts: seq<string>): (r: Cut)
    requires parts != []
    ensures r.path != [] && Free(r.tag, ':')
    ensures r.host != "" ==> Hosted(parts) && r.host == parts[0]
  {
    var hosted := Hosted(parts);
    var (path, tag) := CutTag(if hosted then parts[1..] else parts);
    Cut(if hosted then parts[0] else "", path, tag)
  }

  function CutReference(value: string): Cut {
    CutParts(Split(value, '/'))
  }

  function LowerAll(parts: seq<string>): (r: seq<string>)
    ensures |r| == |parts|
    ensures forall i :: 0 <= i < |r| ==> r[i] == ToLower(parts[i])
  {
    seq(|parts|, i requires 0 <= i < |parts| => ToLower(parts[i]))
  }

  function Print(host: string, path: seq<string>, tag: string): string {
    host + "/" + Join(path, '/') + ":" + tag
  }

  predicate Opaque(value: string) {
    value == "" || value == "<none>" || !Free(value, '@')
  }

  /** `canonicalImageRef`. */
  function Canonical(value: string): string {
    var value := TrimSpace(value);
    if Opaque(value) then value
    else
      var cut := CutReference(value);
      var registry := if cut.host == "" then "docker.io" else ToLower(cut.host);
      var path := if registry == "docker.io" && |cut.path| == 1 then ["library"] + cut.path else cut.path;
      registry + "/" + ToLower(Join(path, '/')) + ":" + cut.tag
  }

  predicate RefEqual(a: string, b: string) {
    Canonical(a) == Canonical(b)
  }

  /** `removalImageMatches`. */
  predicate Matches(tag: string, digest: string, ref: string) {
    RefEqual(tag, ref) || (digest != "" && ref == digest)
  }

  /** `splitImage`. */
  function SplitImage(value: string): (string, string) {
    var lastSlash, lastColon := LastIndex(value, '/'), LastIndex(value, ':');
    if lastColon > lastSlash then (value[..lastColon], value[lastColon + 1..]) else (value, "latest")
  }

  datatype Parsed = Invalid | Parsed(registry: string, repository: string, tag: string)

  /** `parseReference`. */
  function ParseReference(image: string): Parsed {
    var image := TrimSpace(Split(image, '@')[0]);
    if image == "" || exists c :: c in image && c in {' ', '\t', '\r', '\n'} then Invalid
    else
      var cut := CutReference(image);
      var named := if cut.host == "" then "registry-1.docker.io" else cut.host;
      var registry := if named == "docker.io" || named == "index.docker.io" then "registry-1.docker.io" else named;
      var joined := Join(cut.path, '/');
      var repository := if registry == "registry-1.docker.io" && Free(joined, '/') then "library/" + joined else joined;
      if repository == "" || cut.tag == "" then Invalid else Parsed(registry, repository, cut.tag)
  }

  // ----- facts about cutting and printing -----------------------------------------------

  /** What every cut satisfies, and what makes a cut readable again after printing. */
  ghost predicate CutOk(cut: Cut) {
    && cut.path != [] && AllFree(cut.path, '/')
    && Free(cut.tag, '/') && Free(cut.tag, ':') && Free(cut.host, '/')
    && (cut.host != "" ==> IsHost(cut.host))
  }

  lemma CutTagWithout(path: seq<string>, c: char)
    requires path != [] && AllFree(path, c) && c !in {'l', 'a', 't', 'e', 's'}
    ensures AllFree(CutTag(path).0, c) && Free(CutTag(path).1, c)
  {
    var last := path[|path| - 1];
    assert Free(last, c);
    LatestHas(c);
    forall k | 0 <= k < |path| ensures Free(CutTag(path).0[k], c) {
      assert Free(path[k], c);
      if k < |path| - 1 { assert CutTag(path).0[k] == CutTag(path).0[..|path| - 1][k] == path[k]; }
    }
  }

  lemma CutPartsWithout(parts: seq<string>, c: char)
    requires parts != [] && AllFree(parts, c) && c !in {'l', 'a', 't', 'e', 's'}
    ensures AllFree(CutParts(parts).path, c) && Free(CutParts(parts).host, c) && Free(CutParts(parts).tag, c)
  {
    if Hosted(parts) {
      forall k | 0 <= k < |parts| - 1 ensures Free(parts[1..][k], c) { assert parts[1..][k] == parts[k + 1]; }
      CutTagWithout(parts[1..], c);
    } else {
      CutTagWithout(parts, c);
    }
  }

  lemma CutIsOk(value: string)
    ensures CutOk(CutReference(value))
  {
    SplitFree(value, '/');
    CutPartsOk(Split(value, '/'));
  }

  lemma CutPartsOk(parts: seq<string>)
    requires parts != [] && AllFree(parts, '/')
    ensures CutOk(CutParts(parts))
  {
    CutPartsWithout(parts, '/');
  }

  lemma LatestHas(c: char)
    ensures Free("latest", c) <==> c !in {'l', 'a', 't', 'e', 's'}
  {
    var s := "latest";
    assert s[0] == 'l' && s[1] == 'a' && s[2] == 't' && s[3] == 'e' && s[4] == 's' && s[5] == 't';
  }

  /** A character outside the text, other than those of the default tag, is in no piece of its cut. */
  lemma CutWithout(value: string, c: char)
    requires Free(value, c) && c !in {'l', 'a', 't', 'e', 's'}
    ensures var cut := CutReference(value); Free(cut.host, c) && Free(cut.tag, c) && AllFree(cut.path, c)
  {
    SplitWithout(value, '/', c);
    CutPartsWithout(Split(value, '/'), c);
  }

  lemma {:induction false} JoinTag(path: seq<string>, tag: string)
    requires path != []
    ensures Join(path, '/') + ":" + tag == Join(path[..|path| - 1] + [path[|path| - 1] + ":" + tag], '/')
  {
    var tagged := path[..|path| - 1] + [path[|path| - 1] + ":" + tag];
    if |path| == 1 {
      assert path[..0] == [];
    } else {
      JoinTag(path[1..], tag);
      assert path[1..][..|path| - 2] == path[..|path| - 1][1..];
      assert tagged[1..] == path[1..][..|path| - 2] + [path[|path| - 1] + ":" + tag];
      assert Join(path, '/') == path[0] + ['/'] + Join(path[1..], '/');
      assert Join(tagged, '/') == path[0] + ['/'] + Join(tagged[1..], '/');
    }
  }

  lemma LastColon(name: string, tag: string)
    requires Free(tag, ':')
    ensures LastIndex(name + ":" + tag, ':') == |name|
  {
    var s := name + ":" + tag;
    assert s[|name|] == ':';
    assert forall i :: |name| < i < |s| ==> s[i] == tag[i - |name| - 1];
  }

  /** Printing a cut with a host and reading it back gives the same cut. */
  lemma CutPrint(host: string, path: seq<string>, tag: string)
    requires CutOk(Cut(host, path, tag)) && host != ""
    ensures CutReference(Print(host, path, tag)) == Cut(host, path, tag)
  {
    hide Split, Join;
    var last := path[|path| - 1];
    var tagged := path[..|path| - 1] + [last + ":" + tag];
    JoinTag(path, tag);
    assert Print(host, path, tag) == host + "/" + Join(tagged, '/') by {
      assert Print(host, path, tag) == host + "/" + (Join(path, '/') + ":" + tag);
    }
    SplitWhole(host, '/');
    SplitConcat(host, Join(tagged, '/'), '/');
    SplitJoin(tagged, '/');
    assert ([host] + tagged)[1..] == tagged;
    LastColon(last, tag);
    assert (last + ":" + tag)[|last| + 1..] == tag && (last + ":" + tag)[..|last|] == last;
    assert path == path[..|path| - 1] + [last];
  }

  lemma LowerIdempotent(s: string)
    ensures ToLower(ToLower(s)) == ToLower(s)
    ensures forall c :: Free(s, c) && !('A' <= c <= 'Z') && !('a' <= c <= 'z') ==> Free(ToLower(s), c)
  {
  }

  lemma LowerConcat(a: string, b: string)
    ensures ToLower(a + b) == ToLower(a) + ToLower(b)
  {
  }

  lemma {:induction false} LowerJoin(path: seq<string>)
    ensures ToLower(Join(path, '/')) == Join(LowerAll(path), '/')
  {
    if |path| > 1 {
      LowerJoin(path[1..]);
      LowerConcat(path[0] + ['/'], Join(path[1..], '/'));
      LowerConcat(path[0], ['/']);
      assert LowerAll(path)[1..] == LowerAll(path[1..]);
    }
  }

  // ----- the canonical form ---------------------------------------------------------------

  /** The pieces the canonical form prints. */
  function CanonicalCut(cut: Cut): Cut {
    var registry := if cut.host == "" then "docker.io" else ToLower(cut.host);
    var path := if registry == "docker.io" && |cut.path| == 1 then ["library"] + cut.path else cut.path;
    Cut(registry, LowerAll(path), cut.tag)
  }

  lemma CanonicalPrints(value: string)
    requires TrimSpace(value) == value && !Opaque(value)
    ensures var cut := CanonicalCut(CutReference(value));
            CutOk(cut) && cut.host != "" && Canonical(value) == Print(cut.host, cut.path, cut.tag)
  {
    var raw := CutReference(value);
    var cut := CanonicalCut(raw);
    CutIsOk(value);
    LowerJoin(if cut.host == "docker.io" && |raw.path| == 1 then ["library"] + raw.path else raw.path);
    CanonicalCutOk(raw);
  }

  lemma CanonicalCutOk(cut: Cut)
    requires CutOk(cut)
    ensures CutOk(CanonicalCut(cut)) && CanonicalCut(cut).host != ""
  {
    hide IsHost, ToLower, LowerAll, Free, AllFree;
    LowerIdempotent(cut.host);
    HubIsHost();
    if cut.host != "" { LowerHost(cut.host); }
    LoweredPathFree(cut.path, '/');
  }

  lemma HubIsHost()
    ensures IsHost("docker.io") && Free("docker.io", '/') && Free("docker.io", '@')
  {
    assert "docker.io"[6] == '.';
  }

  /** Lowering a path brings in no separator, with or without the library in front. */
  lemma LoweredPathFree(path: seq<string>, c: char)
    requires AllFree(path, c) && (c == '/' || c == '@')
    ensures AllFree(LowerAll(path), c) && AllFree(LowerAll(["library"] + path), c)
  {
    hide ToLower;
    LowerIdempotent("library");
    assert Free("library", c);
    forall k | 0 <= k < |path| ensures Free(ToLower(path[k]), c) { LowerIdempotent(path[k]); }
  }

  lemma LowerHost(host: string)
    requires IsHost(host)
    ensures IsHost(ToLower(host))
  {
    if !Free(host, '.') { var i :| 0 <= i < |host| && host[i] == '.'; assert ToLower(host)[i] == '.'; }
    if !Free(host, ':') { var i :| 0 <= i < |host| && host[i] == ':'; assert ToLower(host)[i] == ':'; }
    if host == "localhost" { assert ToLower(host) == host; }
  }

  lemma CanonicalCutIdempotent(cut: Cut)
    requires CutOk(cut)
    ensures CanonicalCut(CanonicalCut(cut)) == CanonicalCut(cut)
  {
    LowerIdempotent(cut.host);
    HubIsLower();
    if cut.host != "" { LowerHost(cut.host); }
    LowerAllIdempotent(cut.path);
    LowerAllIdempotent(["library"] + cut.path);
    hide ToLower, LowerAll, CutOk, IsHost, Free;
  }

  lemma HubIsLower()
    ensures ToLower("docker.io") == "docker.io"
  {
  }

  lemma LowerAllIdempotent(path: seq<string>)
    ensures LowerAll(LowerAll(path)) == LowerAll(path) && |LowerAll(path)| == |path|
  {
    hide ToLower;
    forall i | 0 <= i < |path| ensures ToLower(ToLower(path[i])) == ToLower(path[i]) { LowerIdempotent(path[i]); }
  }

  lemma LowerSpace(s: string, k: nat)
    requires k < |s|
    ensures IsSpace(ToLower(s)[k]) <==> IsSpace(s[k])
  {
  }

  lemma HostStart(value: string)
    requires value != "" && !IsSpace(value[0]) && CutReference(value).host != ""
    ensures !IsSpace(ToLower(CutReference(value).host)[0])
  {
    SplitFirst(value, '/');
    var host := CutReference(value).host;
    assert host == Split(value, '/')[0] && host[0] == value[0];
    LowerSpace(host, 0);
  }

  lemma TagEnd(value: string)
    requires value != "" && !IsSpace(value[|value| - 1])
    ensures var tag := CutReference(value).tag; tag != "" ==> !IsSpace(tag[|tag| - 1])
  {
    hide Split, LastIndex, IsSpace, CutParts;
    SplitLast(value, '/');
    PartsTagEnd(Split(value, '/'));
    var last := value[LastIndex(value, '/') + 1..];
    assert last != "" ==> last[|last| - 1] == value[|value| - 1];
  }

  lemma PartsTagEnd(parts: seq<string>)
    requires parts != []
    ensures var tag, last := CutParts(parts).tag, parts[|parts| - 1];
            tag != "" ==> !IsSpace(tag[|tag| - 1]) || (last != "" && tag[|tag| - 1] == last[|last| - 1])
  {
    hide CutTag, IsSpace, IsHost;
    if Hosted(parts) {
      PathTagEnd(parts[1..]);
    } else {
      PathTagEnd(parts);
    }
  }

  lemma PathTagEnd(path: seq<string>)
    requires path != []
    ensures var tag, last := CutTag(path).1, path[|path| - 1];
            tag != "" ==> !IsSpace(tag[|tag| - 1]) || (last != "" && tag[|tag| - 1] == last[|last| - 1])
  {
    hide LastIndex;
    TagEnds(path);
  }

  /** The first and the last character of a reference reach its canonical form. */
  lemma CanonicalEnds(value: string)
    requires value != "" && !IsSpace(value[0]) && !IsSpace(value[|value| - 1])
    ensures var cut := CanonicalCut(CutReference(value));
            && (cut.host != "" ==> !IsSpace(cut.host[0]))
            && (cut.tag != "" ==> !IsSpace(cut.tag[|cut.tag| - 1]))
  {
    TagEnd(value);
    if CutReference(value).host != "" { HostStart(value); }
  }

  lemma TagEnds(path: seq<string>)
    requires path != []
    ensures var tag, last := CutTag(path).1, path[|path| - 1];
            tag != "" ==> !IsSpace(tag[|tag| - 1]) || (last != "" && tag[|tag| - 1] == last[|last| - 1])
  {
  }

  /** Canonicalising twice is canonicalising once, for every string. */
  lemma CanonicalIdempotent(value: string)
    ensures Canonical(Canonical(value)) == Canonical(value)
  {
    var v := TrimSpace(value);
    TrimEnds(value);
    TrimNothing(v);
    if !Opaque(v) {
      var cut := CanonicalCut(CutReference(v));
      var out := Canonical(value);
      CanonicalPrints(v);
      CutPrint(cut.host, cut.path, cut.tag);
      CanonicalEnds(v);
      PrintedIsPlain(v);
      TrimNothing(out);
      CutIsOk(v);
      CanonicalCutIdempotent(CutReference(v));
      CanonicalPrints(out);
    }
  }

  lemma PrintedIsPlain(value: string)
    requires !Opaque(value)
    ensures var cut := CanonicalCut(CutReference(value)); !Opaque(Print(cut.host, cut.path, cut.tag))
    ensures var cut := CanonicalCut(CutReference(value)); var out := Print(cut.host, cut.path, cut.tag);
            |out| > |cut.host| + |cut.tag| && out[0] == (if cut.host == "" then '/' else cut.host[0])
            && out[|out| - 1] == (if cut.tag == "" then ':' else cut.tag[|cut.tag| - 1])
  {
    hide CanonicalCut, CutReference, Join;
    var cut := CanonicalCut(CutReference(value));
    var out := Print(cut.host, cut.path, cut.tag);
    assert out[|cut.host|] == '/';
    assert Free("<none>", '/');
    LoweredWithout(value, '@');
    JoinWithout(cut.path, '/', '@');
  }

  lemma LoweredWithout(value: string, c: char)
    requires Free(value, c) && c == '@'
    ensures var cut := CanonicalCut(CutReference(value)); Free(cut.host, c) && AllFree(cut.path, c) && Free(cut.tag, c)
  {
    CutWithout(value, c);
    CanonicalCutWithout(CutReference(value), c);
  }

  lemma CanonicalCutWithout(raw: Cut, c: char)
    requires Free(raw.host, c) && AllFree(raw.path, c) && c == '@'
    ensures var cut := CanonicalCut(raw); Free(cut.host, c) && AllFree(cut.path, c)
  {
    hide ToLower, LowerAll, Free, AllFree;
    LowerIdempotent(raw.host);
    HubIsHost();
    LoweredPathFree(raw.path, c);
  }

  // ----- agreement with the other two readers ----------------------------------------------

  ghost predicate NoSpace(value: string) {
    forall i :: 0 <= i < |value| ==> !IsSpace(value[i])
  }

  /** Splitting into repository and tag and gluing them again loses nothing. */
  lemma SplitImageAgrees(value: string)
    requires !Opaque(value) && NoSpace(value)
    ensures var (repository, tag) := SplitImage(value);
            Canonical(repository + ":" + tag) == Canonical(value)
  {
    SplitImageGlued(value);
    if LastIndex(value, ':') <= LastIndex(value, '/') {
      UntaggedMeansLatest(value);
    }
  }

  lemma SplitImageGlued(value: string)
    ensures var (repository, tag) := SplitImage(value);
            repository + ":" + tag ==
              if LastIndex(value, ':') > LastIndex(value, '/') then value else value + ":latest"
  {
    var colon := LastIndex(value, ':');
    if colon > LastIndex(value, '/') {
      assert value == value[..colon] + ":" + value[colon + 1..];
    }
  }

  lemma UntaggedMeansLatest(value: string)
    requires !Opaque(value) && NoSpace(value) && LastIndex(value, ':') <= LastIndex(value, '/')
    ensures Canonical(value + ":latest") == Canonical(value)
  {
    var full := value + ":latest";
    TrimNothing(value);
    TrimNothing(full);
    assert !Opaque(full);
    UntaggedParts(value);
  }

  lemma FreeBehind(value: string, k: nat, c: char)
    requires LastIndex(value, c) < k <= |value|
    ensures Free(value[k..], c)
  {
  }

  lemma UntaggedParts(value: string)
    requires LastIndex(value, ':') <= LastIndex(value, '/')
    ensures CutReference(value) == CutReference(value + ":latest")
  {
    hide Split, LastIndex, Free, CutParts;
    var parts := Split(value, '/');
    LatestHasNoSlash();
    SplitAppend(value, ":latest", '/');
    FreeBehind(value, LastIndex(value, '/') + 1, ':');
    SplitLast(value, '/');
    LatestPart(parts[..|parts| - 1], parts[|parts| - 1]);
    assert parts == parts[..|parts| - 1] + [parts[|parts| - 1]];
  }

  lemma LatestHasNoSlash()
    ensures Free(":latest", '/')
  {
  }

  lemma LatestTag(path: seq<string>, tail: string)
    requires Free(tail, ':')
    ensures CutTag(path + [tail]) == CutTag(path + [tail + ":latest"])
  {
    LatestHas(':');
    LastColon(tail, "latest");
    var tagged := tail + ":latest";
    assert tagged == tail + ":" + "latest";
    assert tagged[..|tail|] == tail && tagged[|tail| + 1..] == "latest";
    assert LastIndex(tail, ':') == -1;
    assert CutTag(path + [tagged]).0 == path + [tail];
  }

  lemma LatestPart(head: seq<string>, tail: string)
    requires Free(tail, ':')
    ensures CutParts(head + [tail]) == CutParts(head + [tail + ":latest"])
  {
    var a, b := head + [tail], head + [tail + ":latest"];
    LatestTag(head, tail);
    if head != [] {
      assert a[1..] == head[1..] + [tail] && b[1..] == head[1..] + [tail + ":latest"];
      LatestTag(head[1..], tail);
    }
  }

  /** Docker Hub goes by the name `docker.io` in canonical references. */
  function HubAlias(registry: string): string {
    if registry == "registry-1.docker.io" then "docker.io" else registry
  }

  function PrintParsed(p: Parsed): string
    requires p.Parsed?
  {
    HubAlias(p.registry) + "/" + ToLower(p.repository) + ":" + p.tag
  }

  /** The hosts for which the registry client and the canonical form name the same registry. */
  predicate AgreedHost(host: string) {
    host == "" || (host == ToLower(host) && host != "index.docker.io" && host != "registry-1.docker.io")
  }

  lemma {:induction false} JoinSeparates(path: seq<string>)
    requires path != [] && AllFree(path, '/')
    ensures Free(Join(path, '/'), '/') <==> |path| == 1
  {
    assert Free(path[0], '/');
    if |path| > 1 { assert Join(path, '/')[|path[0]|] == '/'; }
  }

  /** The pieces both sides print: registry, joined path, tag. */
  function ParsedRegistry(host: string): string {
    if host == "" || host == "docker.io" || host == "index.docker.io" then "registry-1.docker.io" else host
  }

  lemma ParsedPieces(value: string)
    requires !Opaque(value) && TrimSpace(value) == value && ParseReference(value).Parsed?
    ensures var p, cut := ParseReference(value), CutReference(value);
            && p.registry == ParsedRegistry(cut.host) && p.tag == cut.tag
            && var short := p.registry == "registry-1.docker.io" && |cut.path| == 1;
               p.repository == Join(if short then ["library"] + cut.path else cut.path, '/')
  {
    SplitWhole(value, '@');
    CutIsOk(value);
    var path := CutReference(value).path;
    JoinSeparates(path);
    assert (["library"] + path)[1..] == path;
    assert Join(["library"] + path, '/') == "library" + ['/'] + Join(path, '/');
  }

  lemma CanonicalPieces(value: string)
    requires !Opaque(value) && TrimSpace(value) == value
    ensures var cut := CutReference(value);
            var registry := if cut.host == "" then "docker.io" else ToLower(cut.host);
            var path := if registry == "docker.io" && |cut.path| == 1 then ["library"] + cut.path else cut.path;
            Free(registry, '/') && Canonical(value) == registry + ['/'] + (ToLower(Join(path, '/')) + ":" + cut.tag)
  {
    hide CutReference, Join, ToLower, IsHost, AllFree, TrimSpace;
    CutIsOk(value);
    LowerIdempotent(CutReference(value).host);
    HubIsHost();
  }

  function CanonicalRegistry(host: string): string {
    if host == "" then "docker.io" else ToLower(host)
  }

  lemma RegistriesAgree(host: string)
    ensures CanonicalRegistry(host) == HubAlias(ParsedRegistry(host)) <==> AgreedHost(host)
    ensures AgreedHost(host) ==>
      (CanonicalRegistry(host) == "docker.io" <==> ParsedRegistry(host) == "registry-1.docker.io")
  {
    var a, b, c := "docker.io", "index.docker.io", "registry-1.docker.io";
    assert ToLower(a) == a && ToLower(b) == b && ToLower(c) == c;
    assert |a| == 9 && |b| == 15 && |c| == 20;
  }

  lemma AliasIsFree(host: string)
    requires Free(host, '/')
    ensures Free(HubAlias(ParsedRegistry(host)), '/')
  {
    var a, c := "docker.io", "registry-1.docker.io";
    assert Free(a, '/') && Free(c, '/');
  }

  /** On trimmed references without a digest: when the registry client accepts one, the canonical form
      names the same registry, repository and tag exactly for agreed hosts. */
  lemma ParseAgreesPlainly(value: string)
    requires !Opaque(value) && TrimSpace(value) == value && ParseReference(value).Parsed?
    ensures Canonical(value) == PrintParsed(ParseReference(value)) <==> AgreedHost(CutReference(value).host)
  {
    hide CutReference, ParseReference, Canonical, Join, HubAlias, ParsedRegistry, AgreedHost;
    hide ToLower, TrimSpace, AllFree, Opaque, IsHost;
    var cut, p := CutReference(value), ParseReference(value);
    ParsedPieces(value);
    CanonicalPieces(value);
    CutIsOk(value);
    RegistriesAgree(cut.host);
    AliasIsFree(cut.host);
    var rest := ToLower(p.repository) + ":" + p.tag;
    var registry, alias := CanonicalRegistry(cut.host), HubAlias(p.registry);
    var path := if registry == "docker.io" && |cut.path| == 1 then ["library"] + cut.path else cut.path;
    SameIffSameHead(registry, ToLower(Join(path, '/')) + ":" + cut.tag, alias, rest);
    assert PrintParsed(p) == alias + ['/'] + rest;
  }

  lemma NoSpaceIsTrimmed(value: string)
    requires NoSpace(value)
    ensures TrimSpace(value) == value
  {
    TrimNothing(value);
  }

  lemma PlainParses(value: string)
    requires !Opaque(value) && NoSpace(value)
    requires var cut := CutReference(value); cut.tag != "" && Join(cut.path, '/') != ""
    ensures ParseReference(value).Parsed?
  {
    hide CutReference, Join;
    SplitWhole(value, '@');
    TrimNothing(value);
    forall c | c in value ensures c !in {' ', '\t', '\r', '\n'} {
      var i :| 0 <= i < |value| && value[i] == c;
      assert !IsSpace(value[i]);
    }
  }

  /** Every well-formed reference with such a host is one the registry client accepts and takes to another
      registry than the canonical form names. */
  lemma OtherHostsDisagree(host: string, path: seq<string>, tag: string)
    requires CutOk(Cut(host, path, tag)) && host != "" && !AgreedHost(host)
    requires tag != "" && Join(path, '/') != ""
    requires NoSpace(Print(host, path, tag)) && !Opaque(Print(host, path, tag))
    ensures ParseReference(Print(host, path, tag)).Parsed?
    ensures Canonical(Print(host, path, tag)) != PrintParsed(ParseReference(Print(host, path, tag)))
  {
    hide CutReference, ParseReference, Canonical, Join, Opaque, Print, CutOk, NoSpace;
    var value := Print(host, path, tag);
    CutPrint(host, path, tag);
    PlainParses(value);
    NoSpaceIsTrimmed(value);
    ParseAgreesPlainly(value);
  }

  lemma VisibleIsNoSpace(value: string)
    requires forall i :: 0 <= i < |value| ==> ' ' < value[i] < '\U{7F}'
    ensures NoSpace(value)
  {
  }

  lemma IndexReferencePlain()
    ensures NoSpace("index.docker.io/a:b") && !Opaque("index.docker.io/a:b")
  {
    VisibleIsNoSpace("index.docker.io/a:b");
    assert |"index.docker.io/a:b"| == 19 && |"<none>"| == 6;
    assert Free("index.docker.io/a:b", '@');
  }

  lemma IndexReferencePrinted()
    ensures CutOk(Cut("index.docker.io", ["a"], "b"))
    ensures Print("index.docker.io", ["a"], "b") == "index.docker.io/a:b" && Join(["a"], '/') == "a"
  {
    var host := "index.docker.io";
    assert host[5] == '.' && Free(host, '/') && Free("a", '/') && Free("b", '/') && Free("b", ':');
  }

  /** For example the reference that names Docker Hub by its index host. */
  lemma HubIndexDisagrees()
    ensures var value := "index.docker.io/a:b";
            ParseReference(value).Parsed? && Canonical(value) != PrintParsed(ParseReference(value))
  {
    hide CutReference, ParseReference, Canonical, NoSpace, Opaque, CutOk, Print, Join, ToLower, Free;
    IndexReferencePlain();
    IndexReferencePrinted();
    OtherHostsDisagree("index.docker.io", ["a"], "b");
  }

  // ----- what references mean, by their parts ---------------------------------------------

  /** Parts a reference can be put together from: a path of names, the last one without a colon, and a tag. */
  ghost predicate Parts(path: seq<string>, tag: string) {
    && path != [] && (forall name :: name in path ==> '/' !in name) && ':' !in path[|path| - 1]
    && '/' !in tag && ':' !in tag
  }

  ghost predicate HostLike(part: string) {
    '.' in part || ':' in part || part == "localhost"
  }

  /** The text has no white space in it, is not Docker's word for a missing tag and has no digest. */
  ghost predicate PlainText(value: string) {
    && value != "" && value != "<none>" && '@' !in value
    && forall c :: c in value ==> c !in {' ', '\t', '\n', '\r', '\U{0B}', '\U{0C}', '\U{85}', '\U{A0}'}
  }

  lemma PlainTextIsPlain(value: string)
    requires PlainText(value)
    ensures NoSpace(value) && !Opaque(value)
  {
    assert forall i :: 0 <= i < |value| ==> value[i] in value;
  }

  lemma PartsAreOk(path: seq<string>, tag: string, host: string)
    requires Parts(path, tag) && (host == "" || (HostLike(host) && '/' !in host))
    ensures CutOk(Cut(host, path, tag))
  {
    assert AllFree(path, '/') by {
      assert forall k :: 0 <= k < |path| ==> path[k] in path;
    }
    assert forall c :: Free(host, c) <==> c !in host;
  }

  function Tagged(path: seq<string>, tag: string): (tagged: seq<string>)
    requires path != []
    ensures |tagged| == |path| && (|path| > 1 ==> tagged[0] == path[0])
  {
    path[..|path| - 1] + [path[|path| - 1] + ":" + tag]
  }

  lemma SplitTagged(path: seq<string>, tag: string)
    requires Parts(path, tag)
    ensures Split(Join(path, '/') + ":" + tag, '/') == Tagged(path, tag)
  {
    PartsAreOk(path, tag, "");
    JoinTag(path, tag);
    TaggedFree(path, tag);
    hide Split, Join, Free;
    SplitJoin(Tagged(path, tag), '/');
  }

  lemma CutTagged(path: seq<string>, tag: string)
    requires path != [] && Free(tag, ':')
    ensures CutTag(Tagged(path, tag)) == (path, tag)
  {
    var last := path[|path| - 1];
    LastColon(last, tag);
    hide LastIndex, Free;
    assert (last + ":" + tag)[|last| + 1..] == tag && (last + ":" + tag)[..|last|] == last;
    assert path == path[..|path| - 1] + [last];
  }

  /** Without a host in front, everything is path. */
  lemma CutPlain(path: seq<string>, tag: string)
    requires Parts(path, tag) && (|path| > 1 ==> !HostLike(path[0]))
    ensures CutReference(Join(path, '/') + ":" + tag) == Cut("", path, tag)
  {
    hide Split, Join, Tagged, CutTag, Hosted;
    SplitTagged(path, tag);
    assert Free(tag, ':');
    CutTagged(path, tag);
    NotHosted(Tagged(path, tag), path);
  }

  lemma NotHosted(tagged: seq<string>, path: seq<string>)
    requires |tagged| == |path| > 0 && (|path| > 1 ==> tagged[0] == path[0] && !HostLike(path[0]))
    ensures !Hosted(tagged)
  {
    assert forall c :: Free(tagged[0], c) <==> c !in tagged[0];
  }

  lemma TaggedFree(path: seq<string>, tag: string)
    requires CutOk(Cut("", path, tag))
    ensures AllFree(path[..|path| - 1] + [path[|path| - 1] + ":" + tag], '/')
  {
    var tagged := path[..|path| - 1] + [path[|path| - 1] + ":" + tag];
    forall k | 0 <= k < |tagged| ensures Free(tagged[k], '/') {
      assert Free(path[k], '/');
    }
  }

  /** A reference with a registry host means that registry; the letters of host and path do not matter. */
  lemma HostedMeans(host: string, path: seq<string>, tag: string)
    requires HostLike(host) && '/' !in host && Parts(path, tag)
    requires PlainText(host + "/" + Join(path, '/') + ":" + tag)
    ensures var full := if ToLower(host) == "docker.io" && |path| == 1 then ["library"] + path else path;
            Canonical(host + "/" + Join(path, '/') + ":" + tag) ==
            ToLower(host) + ['/'] + (ToLower(Join(full, '/')) + ":" + tag)
  {
    hide Canonical, CutReference, Join, ToLower, CutOk;
    var value := host + "/" + Join(path, '/') + ":" + tag;
    assert value == Print(host, path, tag);
    PartsAreOk(path, tag, host);
    PlainTextIsPlain(value);
    NoSpaceIsTrimmed(value);
    CutPrint(host, path, tag);
    CanonicalPieces(value);
  }

  /** A reference without one means Docker Hub, and its library if it is a single name. */
  lemma PlainMeans(path: seq<string>, tag: string)
    requires Parts(path, tag) && (|path| > 1 ==> !HostLike(path[0])) && PlainText(Join(path, '/') + ":" + tag)
    ensures Canonical(Join(path, '/') + ":" + tag) ==
            "docker.io" + ['/'] + (ToLower(Join(if |path| == 1 then ["library"] + path else path, '/')) + ":" + tag)
  {
    hide Canonical, CutReference, Join, ToLower;
    var value := Join(path, '/') + ":" + tag;
    PlainTextIsPlain(value);
    NoSpaceIsTrimmed(value);
    CutPlain(path, tag);
    CanonicalPieces(value);
  }

  /** And one without a tag means the tag `latest`. */
  lemma UntaggedMeans(value: string)
    requires PlainText(value) && LastIndex(value, ':') <= LastIndex(value, '/')
    ensures Canonical(value) == Canonical(value + ":latest")
  {
    PlainTextIsPlain(value);
    UntaggedMeansLatest(value);
  }

  /** The registry client takes a reference apart the same way, and asks Docker Hub by the name of its
      registry. */
  lemma HostedParses(host: string, path: seq<string>, tag: string)
    requires HostLike(host) && '/' !in host && Parts(path, tag) && tag != "" && Join(path, '/') != ""
    requires PlainText(host + "/" + Join(path, '/') + ":" + tag)
    ensures var hub := host in {"docker.io", "index.docker.io", "registry-1.docker.io"};
            ParseReference(host + "/" + Join(path, '/') + ":" + tag) ==
            Parsed(if hub then "registry-1.docker.io" else host,
                   Join(if hub && |path| == 1 then ["library"] + path else path, '/'), tag)
  {
    hide CutReference, ParseReference, Join, CutOk;
    var value := host + "/" + Join(path, '/') + ":" + tag;
    assert value == Print(host, path, tag);
    PartsAreOk(path, tag, host);
    PlainTextIsPlain(value);
    NoSpaceIsTrimmed(value);
    CutPrint(host, path, tag);
    PlainParses(value);
    ParsedPieces(value);
  }

  lemma PlainNameParses(path: seq<string>, tag: string)
    requires Parts(path, tag) && (|path| > 1 ==> !HostLike(path[0])) && tag != "" && Join(path, '/') != ""
    requires PlainText(Join(path, '/') + ":" + tag)
    ensures ParseReference(Join(path, '/') + ":" + tag) ==
            Parsed("registry-1.docker.io", Join(if |path| == 1 then ["library"] + path else path, '/'), tag)
  {
    hide CutReference, ParseReference, Join;
    var value := Join(path, '/') + ":" + tag;
    PlainTextIsPlain(value);
    NoSpaceIsTrimmed(value);
    CutPlain(path, tag);
    PlainParses(value);
    ParsedPieces(value);
  }

  // ----- references with a digest -----------------------------------------------------------

  lemma TrimmedKeepsAt(value: string)
    ensures Free(TrimSpace(value), '@') <==> Free(value, '@')
    ensures TrimSpace(TrimSpace(value)) == TrimSpace(value)
  {
    TrimLeftKeeps(value, '@');
    TrimRightKeeps(TrimLeft(value), '@');
    TrimEnds(value);
    TrimNothing(TrimSpace(value));
  }

  /** A canonical form without a digest in it stays without. */
  lemma CanonicalKeepsAt(value: string)
    ensures Free(Canonical(value), '@') <==> Free(value, '@')
  {
    var v := TrimSpace(value);
    TrimmedKeepsAt(value);
    if !Opaque(v) {
      CanonicalPrints(v);
      PrintedIsPlain(v);
    }
  }

  /** A reference that pins a digest, with or without a tag in front of it, matches an image exactly if it
      is, letter for letter, the digest Docker lists for the image. */
  lemma PinnedMatchesOnlyListed(tag: string, digest: string, ref: string)
    requires Free(tag, '@') && !Free(ref, '@')
    ensures Matches(tag, digest, ref) <==> ref == digest
  {
    CanonicalKeepsAt(tag);
    CanonicalKeepsAt(ref);
  }

  /** So a file that pins the very tag of an image does not keep it, unless Docker lists the same text. */
  lemma PinnedTagIsNotMatched(tag: string, pin: string, digest: string)
    requires Free(tag, '@') && digest != tag + "@" + pin
    ensures !Matches(tag, digest, tag + "@" + pin)
  {
    var ref := tag + "@" + pin;
    assert ref[|tag|] == '@';
    PinnedMatchesOnlyListed(tag, digest, ref);
  }

  /** An image with this tag and listed digest is not kept by a file that pins both. */
  lemma PinnedWitness()
    ensures !Matches("nginx:1.25", "nginx@sha256:ab", "nginx:1.25@sha256:ab")
  {
    var tag, pin := "nginx:1.25", "sha256:ab";
    assert Free(tag, '@');
    assert "nginx:1.25@sha256:ab" == tag + "@" + pin;
    assert "nginx@sha256:ab"[5] != (tag + "@" + pin)[5];
    PinnedTagIsNotMatched(tag, pin, "nginx@sha256:ab");
  }

  lemma ParsedHasNoAt(value: string)
    requires ParseReference(value).Parsed?
    ensures ParseReference(value) == ParseReference(TrimSpace(Split(value, '@')[0]))
    ensures Free(Split(value, '@')[0], '@')
  {
    SplitFree(value, '@');
    var head := Split(value, '@')[0];
    var v := TrimSpace(head);
    TrimmedKeepsAt(head);
    SplitWhole(v, '@');
  }

  lemma PrintedHasNoAt(v: string)
    requires TrimSpace(v) == v && Free(v, '@') && ParseReference(v).Parsed?
    ensures Free(PrintParsed(ParseReference(v)), '@')
  {
    hide ParseReference, HubAlias, ToLower;
    var p := ParseReference(v);
    ParsedPartsHaveNoAt(v);
    LowerIdempotent(p.repository);
    AliasHasNoAt(p.registry);
  }

  lemma ParsedPartsHaveNoAt(v: string)
    requires TrimSpace(v) == v && Free(v, '@') && ParseReference(v).Parsed?
    ensures var p := ParseReference(v); Free(p.registry, '@') && Free(p.repository, '@') && Free(p.tag, '@')
  {
    SplitWhole(v, '@');
    CutWithout(v, '@');
    JoinWithout(CutReference(v).path, '/', '@');
    HubNamesHaveNoAt();
    hide CutReference, Split, Join, TrimSpace;
  }

  lemma HubNamesHaveNoAt()
    ensures Free("library/", '@') && Free("registry-1.docker.io", '@') && Free("latest", '@')
  {
  }

  lemma AliasHasNoAt(registry: string)
    requires Free(registry, '@')
    ensures Free(HubAlias(registry), '@')
  {
    HubIsHost();
  }

  /** For every reference the registry client accepts, with whatever spaces around it and with or
      without a digest: the canonical form names the same registry, repository and tag if and only if
      there is no digest, the reference is not Docker's word for a missing one, and the host is absent or
      in lower case and not another name of Docker Hub. */
  lemma ParseAgrees(value: string)
    requires ParseReference(value).Parsed?
    ensures Canonical(value) == PrintParsed(ParseReference(value)) <==>
            Free(value, '@') && TrimSpace(value) != "<none>" && AgreedHost(CutReference(TrimSpace(value)).host)
  {
    hide ParseReference, Canonical, PrintParsed, CutReference, Split, AgreedHost, Join;
    var head := Split(value, '@')[0];
    var v := TrimSpace(head);
    ParsedHasNoAt(value);
    TrimmedKeepsAt(head);
    AcceptedIsNotEmpty(v);
    PrintedHasNoAt(v);
    CanonicalKeepsAt(value);
    if Free(value, '@') {
      SplitWhole(value, '@');
      CanonicalTrims(value);
      if v == "<none>" {
        PrintedIsLonger(v);
        CanonicalOfNone();
      } else {
        ParseAgreesPlainly(v);
      }
    }
  }

  lemma AcceptedIsNotEmpty(v: string)
    requires ParseReference(v).Parsed? && TrimSpace(v) == v && Free(v, '@')
    ensures v != ""
  {
    SplitWhole(v, '@');
  }

  lemma CanonicalTrims(value: string)
    ensures Canonical(value) == Canonical(TrimSpace(value))
  {
    TrimmedKeepsAt(value);
  }

  lemma CanonicalOfNone()
    ensures Canonical("<none>") == "<none>"
  {
    TrimNothing("<none>");
  }

  /** What the registry client prints holds a slash. */
  lemma PrintedIsLonger(v: string)
    requires ParseReference(v).Parsed?
    ensures !Free(PrintParsed(ParseReference(v)), '/') && Free("<none>", '/')
  {
    var p := ParseReference(v);
    assert PrintParsed(p)[|HubAlias(p.registry)|] == '/';
  }

  lemma SameIffSameHead(a: string, x: string, b: string, y: string)
    requires Free(a, '/') && Free(b, '/') && (a == b ==> x == y)
    ensures a + ['/'] + x == b + ['/'] + y <==> a == b
  {
    if a + ['/'] + x == b + ['/'] + y { HeadUnique(a, x, b, y, '/'); }
  }
}
