/**
  The three views of a registry tag that must agree on one artefact: the printer
  registry_tag_for, the sanitizer _sanitize_registry_tag, used before every save and
  restore, and the parser parse_registry_tag, used by cleanup.
 */
module RegistryTag {
  import opened Wrappers
  import opened Text
  import opened RegistrySegment

  // ---- Splitting and joining -----------------------------------------------

  function UntilSlash(s: string): (r: string)
    ensures |r| <= |s|
  {
    if s == "" || s[0] == '/' then "" else [s[0]] + UntilSlash(s[1..])
  }

  // [p for p in s.split('/') if p]; a preceding strip('/') makes no difference to it
  function PathParts(s: string): seq<string>
    decreases |s|
  {
    if s == "" then []
    else
      var head := UntilSlash(s);
      var rest := if |head| < |s| then s[|head| + 1..] else "";
      (if head == "" then [] else [head]) + PathParts(rest)
  }

  // '/'.join(parts)
  function Join(parts: seq<string>): string {
    if parts == [] then ""
    else if |parts| == 1 then parts[0]
    else parts[0] + "/" + Join(parts[1..])
  }

  predicate NoSlash(s: string) {
    '/' !in s
  }

  predicate ProperParts(parts: seq<string>) {
    forall p <- parts :: p != "" && NoSlash(p)
  }

  lemma {:induction false} UntilSlashOf(head: string, rest: string)
    requires NoSlash(head) && (rest == "" || rest[0] == '/')
    ensures UntilSlash(head + rest) == head
  {
    if head != "" {
      assert head[0] in head;
      assert (head + rest)[1..] == head[1..] + rest;
      UntilSlashOf(head[1..], rest);
    } else {
      assert head + rest == rest;
    }
  }

  lemma PathPartsCons(head: string, rest: string)
    requires head != "" && NoSlash(head)
    ensures PathParts(head + "/" + rest) == [head] + PathParts(rest)
  {
    var tail := "/" + rest;
    var s := head + tail;
    UntilSlashOf(head, tail);
    assert s == head + "/" + rest;
    assert s[|head| + 1..] == rest;
  }

  lemma PathPartsOne(head: string)
    requires head != "" && NoSlash(head)
    ensures PathParts(head) == [head]
  {
    UntilSlashOf(head, "");
    assert head + "" == head;
  }

  lemma {:induction false} PathPartsOfJoin(parts: seq<string>)
    requires ProperParts(parts)
    ensures PathParts(Join(parts)) == parts
  {
    if parts != [] {
      assert parts[0] in parts;
      if |parts| == 1 {
        PathPartsOne(parts[0]);
      } else {
        PathPartsCons(parts[0], Join(parts[1..]));
        PathPartsOfJoin(parts[1..]);
        assert parts == [parts[0]] + parts[1..];
      }
    }
  }

  // s.rsplit(':', 1), None when there is no colon
  function SplitLastColon(s: string): Option<(string, string)> {
    if s == "" then None
    else if s[|s| - 1] == ':' then Some((s[..|s| - 1], ""))
    else match SplitLastColon(s[..|s| - 1])
      case None => None
      case Some((name, tag)) => Some((name, tag + [s[|s| - 1]]))
  }

  lemma {:induction false} SplitLastColonOf(name: string, tag: string)
    requires ':' !in tag
    ensures SplitLastColon(name + ":" + tag) == Some((name, tag))
  {
    var s := name + ":" + tag;
    if tag == "" {
      assert s[..|s| - 1] == name;
    } else {
      var front := tag[..|tag| - 1];
      assert s[..|s| - 1] == name + ":" + front;
      assert tag == front + [tag[|tag| - 1]];
      SplitLastColonOf(name, front);
    }
  }

  // ---- URLs ------------------------------------------------------------------

  const HTTP := "http://"
  const HTTPS := "https://"

  predicate HasScheme(s: string) {
    StartsWith(s, HTTP) || StartsWith(s, HTTPS)
  }

  // What follows the "//" of a URL.
  function AfterScheme(s: string): string {
    if StartsWith(s, HTTP) then s[|HTTP|..] else if StartsWith(s, HTTPS) then s[|HTTPS|..] else s
  }

  // The authority component (section 3.2 of RFC 3986) of what follows the "//": up to '/', '?', '#' or the end.
  function Netloc(s: string): string {
    if s == "" || s[0] in {'/', '?', '#'} then "" else [s[0]] + Netloc(s[1..])
  }

  // urlparse(...).path: from the authority up to the query or fragment
  function UntilQuery(s: string): string {
    if s == "" || s[0] in {'?', '#'} then "" else [s[0]] + UntilQuery(s[1..])
  }

  function StripTrailingSlashes(s: string): string {
    if s != "" && s[|s| - 1] == '/' then StripTrailingSlashes(s[..|s| - 1]) else s
  }

  // urlparse(f'//{netloc}').hostname, "" for None: userinfo, port and brackets dropped, lower case
  function Hostname(authority: string): string {
    var hostPort := AfterLastAt(Netloc(authority));
    Lower(if '[' in hostPort then Until(AfterFirst(hostPort, '['), ']') else Until(hostPort, ':'))
  }

  function AfterLastAt(s: string): string {
    if s == "" || s[|s| - 1] == '@' then "" else AfterLastAt(s[..|s| - 1]) + [s[|s| - 1]]
  }

  function Until(s: string, stop: char): string {
    if s == "" || s[0] == stop then "" else [s[0]] + Until(s[1..], stop)
  }

  function AfterFirst(s: string, c: char): string {
    if s == "" then "" else if s[0] == c then s[1..] else AfterFirst(s[1..], c)
  }

  // ---- The printer (app/node_manager.py) ----------------------------------------

  // _normalize_registry_url
  function RegistryBase(registryUrl: string): string {
    var value := StripTrailingSlashes(Strip(registryUrl));
    if value == "" then ""
    else if HasScheme(value) then Netloc(AfterScheme(value))
    else if Netloc(value) != "" then Netloc(value)
    else UntilSlash(value)
  }

  function TagText(base: string, namespace: string, image: string): string {
    base + "/" + namespace + "/" + image + ":latest"
  }

  // registry_tag_for
  function RegistryTagFor(username: string, vmName: string, registryUrl: string): string {
    TagText(RegistryBase(registryUrl), Segment(username), Segment(vmName))
  }

  // ---- The sanitizer (app/main/routes.py) -----------------------------------------

  // _registry_authority_from_config
  function ConfiguredAuthority(registryUrl: string): Option<string> {
    var value := Strip(registryUrl);
    var authority := if value == "" then "" else Strip(Netloc(AfterScheme(value)));
    if authority == "" then None else Some(authority)
  }

  predicate IsLocalName(host: string) {
    host == "localhost" || host == "127.0.0.1"
  }

  predicate IsV2(s: string) {
    Lower(s) == "v2"
  }

  // An accidental /v2 path segment, or a leading v2, is dropped once.
  function DropV2(parts: seq<string>): seq<string> {
    if |parts| >= 2 && IsV2(parts[1]) then [parts[0]] + parts[2..]
    else if |parts| >= 1 && IsV2(parts[0]) then parts[1..]
    else parts
  }

  // Tags that still name localhost move to a configured authority that does not.
  function HealHost(host: string, registryUrl: string): string {
    var authority := ConfiguredAuthority(registryUrl);
    if IsLocalName(Hostname(host)) && authority.Some?
       && Hostname(authority.value) != "" && !IsLocalName(Hostname(authority.value))
    then authority.value
    else host
  }

  function SanitizeLast(part: string): string {
    match SplitLastColon(part)
    case None => Segment(part)
    case Some((name, tag)) => if tag == "" then Segment(name) else Segment(name) + ":" + tag
  }

  function SanitizePath(parts: seq<string>): seq<string> {
    if parts == [] then []
    else if |parts| == 1 then [SanitizeLast(parts[0])]
    else [Segment(parts[0])] + SanitizePath(parts[1..])
  }

  function SanitizeParts(parts: seq<string>, registryUrl: string): seq<string> {
    var kept := DropV2(parts);
    if kept == [] then [] else [HealHost(kept[0], registryUrl)] + SanitizePath(kept[1..])
  }

  // A URL keeps its authority and path only.
  function WithoutScheme(value: string): string {
    if HasScheme(value) then UntilQuery(AfterScheme(value)) else value
  }

  // _sanitize_registry_tag
  function SanitizeTag(tag: string, registryUrl: string): string {
    Join(SanitizeParts(PathParts(WithoutScheme(Strip(tag))), registryUrl))
  }

  // The loop that rewrites everything after the authority, component by component.
  method NormalizeComponents(given: seq<string>) returns (parts: seq<string>)
    requires given != []
    ensures parts == [given[0]] + SanitizePath(given[1..])
  {
    parts := given;
    for idx := 1 to |parts|
      invariant |parts| == |given| && parts[0] == given[0] && parts[idx..] == given[idx..]
      invariant forall k :: 1 <= k < idx ==> parts[k] == SanitizeComponent(given, k)
    {
      assert parts[idx] == parts[idx..][0] == given[idx];
      parts := parts[idx := SanitizeComponent(given, idx)];
    }
    SanitizePathComponents(given[1..]);
  }

  // What one turn of the loop writes.
  function SanitizeComponent(parts: seq<string>, idx: nat): string
    requires idx < |parts|
  {
    if idx == |parts| - 1 then SanitizeLast(parts[idx]) else Segment(parts[idx])
  }

  lemma {:induction false} SanitizePathComponents(path: seq<string>)
    ensures |SanitizePath(path)| == |path|
    ensures forall k :: 0 <= k < |path| ==> SanitizePath(path)[k] == SanitizeComponent(path, k)
  {
    if |path| > 1 {
      SanitizePathComponents(path[1..]);
      forall k | 1 <= k < |path| ensures SanitizePath(path)[k] == SanitizeComponent(path, k) {
        assert path[1..][k - 1] == path[k];
      }
    }
  }

  method SanitizeRegistryTag(tag: string, registryUrl: string) returns (result: string)
    ensures result == SanitizeTag(tag, registryUrl)
  {
    var parts := DropV2(PathParts(WithoutScheme(Strip(tag))));
    if parts != [] {
      parts := [HealHost(parts[0], registryUrl)] + parts[1..];
      parts := NormalizeComponents(parts);
    }
    result := Join(parts);
  }

  // ---- The parser (app/registry_cleanup.py) -----------------------------------------

  datatype Parsed = Artefact(host: string, repo: string, tag: string) | Invalid

  function ParseParts(parts: seq<string>): Parsed {
    if |parts| < 2 then Invalid
    else
      var path := if IsV2(parts[1]) then parts[2..] else parts[1..];
      if path == [] then Invalid
      else
        var (name, tag) := match SplitLastColon(path[|path| - 1])
                           case Some(pair) => pair
                           case None => (path[|path| - 1], "latest");
        var repo := Join(path[..|path| - 1] + [name]);
        if StripSlashes(repo) == "" then Invalid else Artefact(parts[0], StripSlashes(repo), tag)
  }

  // s.strip('/')
  function StripSlashes(s: string): string {
    if s != "" && s[0] == '/' then StripSlashes(s[1..])
    else if s != "" && s[|s| - 1] == '/' then StripSlashes(s[..|s| - 1])
    else s
  }

  // parse_registry_tag
  function ParseTag(tag: string): Parsed {
    var value := Strip(tag);
    if value == "" then Invalid else ParseParts(PathParts(WithoutScheme(value)))
  }

  // ---- Printed tags --------------------------------------------------------------------

  // A usable authority: not empty, no white space, path or query characters, and not the word v2.
  predicate IsAuthority(s: string) {
    s != "" && (forall c <- s :: !IsSpace(c) && c !in {'/', '?', '#'}) && !IsV2(s)
  }

  // The parts of host/namespace/image:latest, or host/image:latest.
  function TagParts(host: string, namespace: Option<string>, image: string): seq<string> {
    [host] + (if namespace.Some? then [namespace.value] else []) + [image + ":latest"]
  }

  lemma CleanFacts(s: string)
    requires Clean(s)
    ensures NoSlash(s) && ':' !in s && !IsSpace(s[0]) && s[0] != '/' && s != ""
    ensures Segment(s) == s && Lower(s) == s
  {
    SegmentFixpoint(s);
    assert s[0] in s;
    forall i | 0 <= i < |s| ensures LowerChar(s[i]) == s[i] {
      assert s[i] in s;
    }
  }

  lemma LastPart(image: string)
    requires Clean(image)
    ensures SplitLastColon(image + ":latest") == Some((image, "latest"))
    ensures SanitizeLast(image + ":latest") == image + ":latest"
    ensures NoSlash(image + ":latest") && !IsV2(image + ":latest")
  {
    CleanFacts(image);
    SplitLastColonOf(image, "latest");
    assert image + ":" + "latest" == image + ":latest";
    assert Lower(image + ":latest")[|image|] == ':';
  }

  lemma TagPartsProper(host: string, namespace: Option<string>, image: string)
    requires IsAuthority(host) && Clean(image) && (namespace.Some? ==> Clean(namespace.value))
    ensures ProperParts(TagParts(host, namespace, image))
  {
    LastPart(image);
    if namespace.Some? {
      CleanFacts(namespace.value);
    }
  }

  // What follows the host in a printed tag.
  function TagTail(namespace: Option<string>, image: string): string {
    (if namespace.Some? then namespace.value + "/" else "") + (image + ":latest")
  }

  lemma JoinedTag(host: string, namespace: Option<string>, image: string)
    ensures Join(TagParts(host, namespace, image)) == host + "/" + TagTail(namespace, image)
  {
    var parts := TagParts(host, namespace, image);
    if namespace.Some? {
      assert parts[1..] == [namespace.value, image + ":latest"];
      assert parts[1..][1..] == [image + ":latest"];
      assert Join(parts[1..]) == TagTail(namespace, image);
    } else {
      assert parts[1..] == [image + ":latest"];
    }
  }

  // A scheme's first slash is followed by another one; the first slash of host/rest is not.
  lemma NoSchemePrefix(host: string, rest: string, scheme: string, k: nat)
    requires NoSlash(host) && rest != "" && rest[0] != '/'
    requires k + 1 < |scheme| && scheme[k] == '/' && scheme[k + 1] == '/' && forall i :: 0 <= i < k ==> scheme[i] != '/'
    ensures !StartsWith(host + "/" + rest, scheme)
  {
    var t := host + "/" + rest;
    assert t[|host|] == '/' && t[|host| + 1] == rest[0];
    if |host| < k {
      assert scheme[|host|] != t[|host|];
    } else if |host| > k {
      assert host[k] in host && t[k] == host[k];
      assert scheme[k] != t[k];
    } else {
      assert scheme[k + 1] != t[k + 1];
    }
  }

  lemma JoinedTagEnds(host: string, namespace: Option<string>, image: string)
    requires IsAuthority(host) && Clean(image) && (namespace.Some? ==> Clean(namespace.value))
    ensures var t := Join(TagParts(host, namespace, image));
            t != "" && !HasScheme(t) && t[0] == host[0] && t[|t| - 1] == 't'
  {
    var tail := TagTail(namespace, image);
    JoinedTag(host, namespace, image);
    CleanFacts(image);
    if namespace.Some? {
      CleanFacts(namespace.value);
    }
    assert tail[0] != '/' && tail[|tail| - 1] == 't';
    NoSchemePrefix(host, tail, HTTP, 5);
    NoSchemePrefix(host, tail, HTTPS, 6);
  }

  // A printed tag has nothing to strip and no scheme, so only its parts matter.
  lemma JoinedTagPlain(host: string, namespace: Option<string>, image: string)
    requires IsAuthority(host) && Clean(image) && (namespace.Some? ==> Clean(namespace.value))
    ensures var t := Join(TagParts(host, namespace, image));
            t != "" && Strip(t) == t && !HasScheme(t) && PathParts(t) == TagParts(host, namespace, image)
  {
    JoinedTagEnds(host, namespace, image);
    assert host[0] in host;
    TagPartsProper(host, namespace, image);
    PathPartsOfJoin(TagParts(host, namespace, image));
  }

  lemma TagTextParts(base: string, namespace: string, image: string)
    ensures TagText(base, namespace, image) == Join(TagParts(base, Some(namespace), image))
  {
    JoinedTag(base, Some(namespace), image);
  }

  // ---- The configured authority is the printed one ------------------------------------------

  lemma {:induction false} NetlocIgnoresTrailingSlashes(s: string)
    ensures Netloc(StripTrailingSlashes(s)) == Netloc(s)
    decreases |s|
  {
    if s != "" && s[|s| - 1] == '/' {
      NetlocIgnoresTrailingSlashes(s[..|s| - 1]);
      NetlocOfSlash(s[..|s| - 1]);
      assert s == s[..|s| - 1] + "/";
    }
  }

  lemma {:induction false} NetlocOfSlash(s: string)
    ensures Netloc(s + "/") == Netloc(s)
  {
    if s != "" {
      assert (s + "/")[1..] == s[1..] + "/";
      NetlocOfSlash(s[1..]);
    }
  }

  lemma {:induction false} StripTrailingSlashesPrefix(s: string)
    ensures var r := StripTrailingSlashes(s);
            r <= s && (r != "" ==> r[|r| - 1] != '/') && forall i :: |r| <= i < |s| ==> s[i] == '/'
  {
    if s != "" && s[|s| - 1] == '/' {
      StripTrailingSlashesPrefix(s[..|s| - 1]);
    }
  }

  lemma SlashAfterPrefix(s: string, prefix: string)
    requires StartsWith(s, prefix)
    ensures StartsWith(s + "/", prefix) && (s + "/")[|prefix|..] == s[|prefix|..] + "/"
  {}

  lemma SlashAfterScheme(s: string)
    requires HasScheme(s)
    ensures HasScheme(s + "/") && AfterScheme(s + "/") == AfterScheme(s) + "/"
  {
    if StartsWith(s, HTTP) {
      SlashAfterPrefix(s, HTTP);
    } else {
      SlashAfterPrefix(s, HTTPS);
      assert (s + "/")[4] == s[4] == HTTPS[4] != HTTP[4];
    }
  }

  lemma {:induction false} TrailingSlashesKeepScheme(s: string)
    ensures HasScheme(StripTrailingSlashes(s)) ==>
              HasScheme(s) && Netloc(AfterScheme(StripTrailingSlashes(s))) == Netloc(AfterScheme(s))
    ensures !HasScheme(StripTrailingSlashes(s)) && HasScheme(s) ==> Netloc(AfterScheme(s)) == ""
  {
    if s != "" && s[|s| - 1] == '/' {
      var front := s[..|s| - 1];
      TrailingSlashesKeepScheme(front);
      if HasScheme(front) {
        assert s == front + "/";
        SlashAfterScheme(front);
        NetlocOfSlash(AfterScheme(front));
      }
    }
  }

  // With an authority in REGISTRY_URL, the configured authority is the printed one, or none at all.
  lemma ConfiguredIsBase(url: string)
    requires IsAuthority(RegistryBase(url))
    ensures ConfiguredAuthority(url) == None || ConfiguredAuthority(url) == Some(RegistryBase(url))
  {
    var value := Strip(url);
    var trimmed := StripTrailingSlashes(value);
    TrailingSlashesKeepScheme(value);
    NetlocIgnoresTrailingSlashes(value);
    var base := RegistryBase(url);
    assert base[0] in base && base[|base| - 1] in base;
    if HasScheme(value) && !HasScheme(trimmed) {
      assert Strip("") == "";
    }
  }

  lemma NoHealing(url: string)
    requires IsAuthority(RegistryBase(url))
    ensures HealHost(RegistryBase(url), url) == RegistryBase(url)
  {
    ConfiguredIsBase(url);
  }

  // ---- The theorems ------------------------------------------------------------------------------

  lemma DropV2OfParts(host: string, namespace: Option<string>, image: string)
    requires IsAuthority(host) && Clean(image) && (namespace.Some? ==> Clean(namespace.value))
    ensures var parts := TagParts(host, namespace, image);
            (IsV2(parts[1]) <==> namespace == Some("v2"))
            && DropV2(parts) == TagParts(host, if namespace == Some("v2") then None else namespace, image)
  {
    LastPart(image);
    if namespace.Some? {
      CleanFacts(namespace.value);
    }
  }

  lemma SanitizePathOfParts(host: string, namespace: Option<string>, image: string)
    requires Clean(image) && (namespace.Some? ==> Clean(namespace.value))
    ensures var path := TagParts(host, namespace, image)[1..]; SanitizePath(path) == path
  {
    LastPart(image);
    var path := TagParts(host, namespace, image)[1..];
    if namespace.Some? {
      CleanFacts(namespace.value);
      assert path == [namespace.value, image + ":latest"];
      assert path[1..] == [image + ":latest"];
    } else {
      assert path == [image + ":latest"];
    }
  }

  lemma SanitizedParts(host: string, namespace: Option<string>, image: string, url: string)
    requires IsAuthority(host) && Clean(image) && (namespace.Some? ==> Clean(namespace.value))
    ensures var kept := if namespace == Some("v2") then None else namespace;
            SanitizeParts(TagParts(host, namespace, image), url) == TagParts(HealHost(host, url), kept, image)
  {
    var kept := if namespace == Some("v2") then None else namespace;
    DropV2OfParts(host, namespace, image);
    SanitizePathOfParts(host, kept, image);
    var parts := TagParts(host, kept, image);
    assert [HealHost(parts[0], url)] + parts[1..] == TagParts(HealHost(host, url), kept, image);
  }

  lemma RepoName(namespace: Option<string>, image: string)
    requires Clean(image) && (namespace.Some? ==> Clean(namespace.value))
    ensures var names := (if namespace.Some? then [namespace.value] else []) + [image];
            var repo := if namespace.Some? then namespace.value + "/" + image else image;
            Join(names) == repo && repo != "" && StripSlashes(repo) == repo
  {
    CleanFacts(image);
    assert image[|image| - 1] in image;
    if namespace.Some? {
      CleanFacts(namespace.value);
      assert [namespace.value, image][1..] == [image];
      var repo := namespace.value + "/" + image;
      assert repo[0] == namespace.value[0] && repo[|repo| - 1] == image[|image| - 1];
    }
  }

  lemma ParsedParts(host: string, namespace: Option<string>, image: string)
    requires IsAuthority(host) && Clean(image) && (namespace.Some? ==> Clean(namespace.value))
    ensures var repo := if namespace.None? || namespace == Some("v2") then image else namespace.value + "/" + image;
            ParseParts(TagParts(host, namespace, image)) == Artefact(host, repo, "latest")
  {
    var kept := if namespace == Some("v2") then None else namespace;
    LastPart(image);
    DropV2OfParts(host, namespace, image);
    RepoName(kept, image);
    var parts := TagParts(host, namespace, image);
    var names := if kept.Some? then [kept.value] else [];
    var path := if IsV2(parts[1]) then parts[2..] else parts[1..];
    assert path == names + [image + ":latest"];
    assert path[..|path| - 1] == names;
  }

  lemma SanitizeOfParts(host: string, namespace: Option<string>, image: string, url: string)
    requires IsAuthority(host) && Clean(image) && (namespace.Some? ==> Clean(namespace.value))
    ensures var kept := if namespace == Some("v2") then None else namespace;
            SanitizeTag(Join(TagParts(host, namespace, image)), url) == Join(TagParts(HealHost(host, url), kept, image))
  {
    JoinedTagPlain(host, namespace, image);
    SanitizedParts(host, namespace, image, url);
  }

  lemma ParseOfParts(host: string, namespace: Option<string>, image: string)
    requires IsAuthority(host) && Clean(image) && (namespace.Some? ==> Clean(namespace.value))
    ensures var repo := if namespace.None? || namespace == Some("v2") then image else namespace.value + "/" + image;
            ParseTag(Join(TagParts(host, namespace, image))) == Artefact(host, repo, "latest")
  {
    JoinedTagPlain(host, namespace, image);
    ParsedParts(host, namespace, image);
  }

  // Printing a tag and parsing it gives back authority, namespace, image and `latest`;
  // the one namespace the parser drops is v2.
  lemma PrintParseRoundTrip(username: string, vmName: string, url: string)
    requires IsAuthority(RegistryBase(url))
    ensures var namespace, image := Segment(username), Segment(vmName);
            ParseTag(RegistryTagFor(username, vmName, url))
            == Artefact(RegistryBase(url), if namespace == "v2" then image else namespace + "/" + image, "latest")
  {
    TagTextParts(RegistryBase(url), Segment(username), Segment(vmName));
    SegmentIsClean(username);
    SegmentIsClean(vmName);
    ParseOfParts(RegistryBase(url), Some(Segment(username)), Segment(vmName));
  }

  // Save, restore and cleanup name one artefact: sanitizing is stable, nothing is left to strip,
  // and the parser reads the sanitized tag like the printed one.
  lemma SaveResumeCleanupAgree(username: string, vmName: string, url: string)
    requires IsAuthority(RegistryBase(url))
    ensures var t := RegistryTagFor(username, vmName, url);
            var s := SanitizeTag(t, url);
            && SanitizeTag(s, url) == s && Strip(s) == s && ParseTag(s) == ParseTag(t)
            && (Segment(username) != "v2" ==> s == t)
  {
    var host, namespace, image := RegistryBase(url), Segment(username), Segment(vmName);
    SegmentIsClean(username);
    SegmentIsClean(vmName);
    TagTextParts(RegistryBase(url), Segment(username), Segment(vmName));
    NoHealing(url);
    var kept := if namespace == "v2" then None else Some(namespace);
    SanitizeOfParts(host, Some(namespace), image, url);
    SanitizeOfParts(host, kept, image, url);
    ParseOfParts(host, Some(namespace), image);
    ParseOfParts(host, kept, image);
    JoinedTagPlain(host, kept, image);
  }

  // A legacy tag that still names this host is healed to the artefact the printed tag names.
  lemma LegacyTagHeals(host: string, username: string, vmName: string, url: string)
    requires IsAuthority(host) && IsLocalName(Hostname(host))
    requires IsAuthority(RegistryBase(url)) && ConfiguredAuthority(url).Some?
    requires Hostname(RegistryBase(url)) != "" && !IsLocalName(Hostname(RegistryBase(url)))
    ensures SanitizeTag(TagText(host, Segment(username), Segment(vmName)), url)
            == SanitizeTag(RegistryTagFor(username, vmName, url), url)
  {
    var base, namespace, image := RegistryBase(url), Segment(username), Segment(vmName);
    SegmentIsClean(username);
    SegmentIsClean(vmName);
    ConfiguredIsBase(url);
    NoHealing(url);
    TagTextParts(host, namespace, image);
    TagTextParts(base, namespace, image);
    SanitizeOfParts(host, Some(namespace), image, url);
    SanitizeOfParts(base, Some(namespace), image, url);
  }

  // Sanitized tags of clean names are stable, and equal only for equal names.
  lemma NamedArtefacts(host: string, n1: string, i1: string, n2: string, i2: string, url: string)
    requires IsAuthority(host) && HealHost(host, url) == host
    requires Clean(n1) && Clean(i1) && Clean(n2) && Clean(i2)
    ensures var t1 := SanitizeTag(Join(TagParts(host, Some(n1), i1)), url);
            var t2 := SanitizeTag(Join(TagParts(host, Some(n2), i2)), url);
            && (t1 == t2 <==> n1 == n2 && i1 == i2)
            && SanitizeTag(t1, url) == t1 && Strip(t1) == t1
  {
    var k1 := if n1 == "v2" then None else Some(n1);
    var k2 := if n2 == "v2" then None else Some(n2);
    SanitizeOfParts(host, Some(n1), i1, url);
    SanitizeOfParts(host, k1, i1, url);
    SanitizeOfParts(host, Some(n2), i2, url);
    JoinedTagPlain(host, k1, i1);
    JoinedTagPlain(host, k2, i2);
    SamePartsSameNames(host, k1, i1, k2, i2);
  }

  // Two VMs get the same artefact exactly when both sanitized names coincide.
  lemma SameArtefactExactly(u1: string, v1: string, u2: string, v2: string, url: string)
    requires IsAuthority(RegistryBase(url))
    ensures SanitizeTag(RegistryTagFor(u1, v1, url), url) == SanitizeTag(RegistryTagFor(u2, v2, url), url)
            <==> Segment(u1) == Segment(u2) && Segment(v1) == Segment(v2)
  {
    SegmentIsClean(u1);
    SegmentIsClean(v1);
    SegmentIsClean(u2);
    SegmentIsClean(v2);
    TagTextParts(RegistryBase(url), Segment(u1), Segment(v1));
    TagTextParts(RegistryBase(url), Segment(u2), Segment(v2));
    NoHealing(url);
    NamedArtefacts(RegistryBase(url), Segment(u1), Segment(v1), Segment(u2), Segment(v2), url);
  }

  // ---- Gold tags (app/admin/routes.py) ---------------------------------------------------------

  const GOLD_NAMESPACE := "gold-images"

  function GoldSegment(name: string): string {
    var safe := StripHyphens(CollapseHyphens(ReplaceRuns(Lower(Strip(name)), false), false));
    if safe == "" then "gold" else safe
  }

  // _gold_registry_tag, with REGISTRY_URL naming an authority
  function GoldTagFor(name: string, url: string): string {
    SanitizeTag(TagText(RegistryBase(url), GOLD_NAMESPACE, GoldSegment(name)), url)
  }

  lemma GoldSegmentIsClean(name: string)
    ensures Clean(GoldSegment(name))
  {
    var r := ReplaceRuns(Lower(Strip(name)), false);
    ReplaceRunsTidy(Lower(Strip(name)), false);
    CollapseTidy(r, false);
    StripHyphensTidy(r);
  }

  lemma GoldNamespaceIsClean()
    ensures Clean(GOLD_NAMESPACE) && GOLD_NAMESPACE != "v2"
  {}

  // A gold tag is stable, and is a VM's own artefact exactly for a user whose name sanitizes to gold-images.
  lemma GoldTagExactly(name: string, username: string, vmName: string, url: string)
    requires IsAuthority(RegistryBase(url))
    ensures var g := GoldTagFor(name, url);
            && SanitizeTag(g, url) == g && Strip(g) == g
            && (g == SanitizeTag(RegistryTagFor(username, vmName, url), url)
                <==> Segment(username) == GOLD_NAMESPACE && Segment(vmName) == GoldSegment(name))
  {
    var host, image := RegistryBase(url), GoldSegment(name);
    GoldSegmentIsClean(name);
    SegmentIsClean(username);
    SegmentIsClean(vmName);
    GoldNamespaceIsClean();
    TagTextParts(host, GOLD_NAMESPACE, image);
    TagTextParts(RegistryBase(url), Segment(username), Segment(vmName));
    NoHealing(url);
    NamedArtefacts(host, GOLD_NAMESPACE, image, Segment(username), Segment(vmName), url);
  }

  lemma SamePartsSameNames(host: string, n1: Option<string>, i1: string, n2: Option<string>, i2: string)
    ensures TagParts(host, n1, i1) == TagParts(host, n2, i2) <==> n1 == n2 && i1 == i2
  {
    var p1, p2 := TagParts(host, n1, i1), TagParts(host, n2, i2);
    if p1 == p2 {
      assert p1[|p1| - 1] == p2[|p2| - 1];
      assert i1 == (i1 + ":latest")[..|i1|] && i2 == (i2 + ":latest")[..|i2|];
      assert n1.Some? ==> p1[1] == n1.value;
      assert n2.Some? ==> p2[1] == n2.value;
    }
  }

  // ---- Tags that were not printed -----------------------------------------------------------------

  lemma SanitizeLastStable(part: string)
    ensures SanitizeLast(SanitizeLast(part)) == SanitizeLast(part)
  {
    match SplitLastColon(part)
    case None =>
      SegmentIsClean(part);
      CleanHasNoColon(Segment(part));
      SegmentIdempotent(part);
    case Some((name, tag)) =>
      SegmentIsClean(name);
      CleanHasNoColon(Segment(name));
      SegmentIdempotent(name);
      SplitLastColonTag(part);
      SplitLastColonOf(Segment(name), tag);
  }

  lemma {:induction false} SplitLastColonTag(s: string)
    ensures SplitLastColon(s).Some? ==> ':' !in SplitLastColon(s).value.1
    ensures ':' !in s ==> SplitLastColon(s).None?
  {
    if s != "" {
      SplitLastColonTag(s[..|s| - 1]);
      assert s[|s| - 1] in s;
    }
  }

  lemma CleanHasNoColon(s: string)
    requires Clean(s)
    ensures SplitLastColon(s).None?
  {
    CleanFacts(s);
    SplitLastColonTag(s);
  }

  lemma {:induction false} SanitizePathStable(parts: seq<string>)
    ensures |SanitizePath(parts)| == |parts| && SanitizePath(SanitizePath(parts)) == SanitizePath(parts)
  {
    if |parts| == 1 {
      SanitizeLastStable(parts[0]);
    } else if parts != [] {
      SegmentIdempotent(parts[0]);
      SanitizePathStable(parts[1..]);
      assert SanitizePath(parts)[1..] == SanitizePath(parts[1..]);
    }
  }

  // On parts: sanitizing again changes nothing exactly when no v2 is left among the first two.
  lemma SanitizePartsStableExactly(parts: seq<string>, url: string)
    ensures var once := SanitizeParts(parts, url);
            SanitizeParts(once, url) == once
            <==> !(|once| >= 1 && IsV2(once[0])) && !(|once| >= 2 && IsV2(once[1]))
  {
    var kept, once := DropV2(parts), SanitizeParts(parts, url);
    if kept != [] {
      SanitizePathStable(kept[1..]);
      assert once[1..] == SanitizePath(kept[1..]);
      if DropV2(once) != once {
        assert |DropV2(once)| < |once|;
        var again := DropV2(once);
        if again != [] {
          SanitizePathStable(again[1..]);
        }
      }
    }
  }

  lemma {:induction false} CleanPathUnchanged(path: seq<string>)
    requires forall p <- path :: Clean(p)
    ensures SanitizePath(path) == path
  {
    if path != [] {
      assert path[0] in path;
      CleanFacts(path[0]);
      CleanHasNoColon(path[0]);
      CleanPathUnchanged(path[1..]);
    }
  }

  lemma V2Drops(host: string, w: string, path: seq<string>)
    requires IsV2(w)
    ensures DropV2([host] + ([w] + path)) == [host] + path
  {
    var parts := [host] + ([w] + path);
    assert parts[0] == host && parts[1] == w && parts[2..] == path;
  }

  lemma V2Dropped(host: string, w: string, path: seq<string>, url: string)
    requires HealHost(host, url) == host && IsV2(w) && SanitizePath(path) == path
    ensures SanitizeParts([host] + ([w] + path), url) == [host] + path
  {
    V2Drops(host, w, path);
    assert ([host] + path)[1..] == path;
  }

  lemma DoubledV2InParts(host: string, w: string, path: seq<string>, url: string)
    requires HealHost(host, url) == host && Clean(w) && IsV2(w) && forall p <- path :: Clean(p)
    ensures SanitizeParts([host] + ([w] + ([w] + path)), url) == [host] + ([w] + path)
    ensures SanitizeParts([host] + ([w] + path), url) == [host] + path
  {
    CleanPathUnchanged(path);
    CleanPathUnchanged([w] + path);
    V2Dropped(host, w, [w] + path, url);
    V2Dropped(host, w, path, url);
  }
}
