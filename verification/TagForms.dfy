/**
  Tags as people and older versions wrote them: with a URL scheme, a /v2 path segment, other
  versions than latest or none, deeper repository paths, raw names.
 */
module TagForms {
  import opened Wrappers
  import opened Text
  import opened RegistrySegment
  import opened RegistryTag

  // ---- Schemes ----------------------------------------------------------------

  predicate HasNoQuery(s: string) {
    '?' !in s && '#' !in s
  }

  // Nothing, or a query or fragment that does not end in white space.
  predicate IsQuery(s: string) {
    s == "" || (s[0] in {'?', '#'} && !IsSpace(s[|s| - 1]))
  }

  lemma {:induction false} UntilQueryOf(s: string, query: string)
    requires HasNoQuery(s) && IsQuery(query)
    ensures UntilQuery(s + query) == s
  {
    if s == "" {
      assert s + query == query;
    } else {
      assert s[0] in s && (s + query)[1..] == s[1..] + query;
      UntilQueryOf(s[1..], query);
    }
  }

  // Behind a scheme that starts it, the rest of a URL is left.
  lemma AfterItsScheme(scheme: string, rest: string)
    requires scheme in {HTTP, HTTPS}
    ensures HasScheme(scheme + rest) && AfterScheme(scheme + rest) == rest
  {
    var url := scheme + rest;
    assert url[|scheme|..] == rest;
    assert HTTPS[4] == 's' && HTTP[4] == ':';
    assert scheme == HTTPS ==> url[4] == 's';
  }

  lemma UrlIsStripped(scheme: string, rest: string)
    requires scheme in {HTTP, HTTPS} && rest != "" && !IsSpace(rest[|rest| - 1])
    ensures Strip(scheme + rest) == scheme + rest != ""
  {
    var url := scheme + rest;
    assert url[0] == 'h' && url[|url| - 1] == rest[|rest| - 1];
  }

  lemma SchemeComesOff(scheme: string, t: string, query: string)
    requires scheme in {HTTP, HTTPS} && t != "" && Strip(t) == t && HasNoQuery(t) && IsQuery(query)
    ensures var url := scheme + (t + query); Strip(url) == url != "" && WithoutScheme(url) == t
  {
    var rest := t + query;
    StripIsStripped(t);
    assert rest[|rest| - 1] == if query == "" then t[|t| - 1] else query[|query| - 1];
    AfterItsScheme(scheme, rest);
    UrlIsStripped(scheme, rest);
    UntilQueryOf(t, query);
  }

  // A URL names the artefact that its authority and path name, whatever scheme and query it has.
  lemma UrlNamesSameArtefact(scheme: string, t: string, query: string, registryUrl: string)
    requires scheme in {HTTP, HTTPS} && t != "" && Strip(t) == t && !HasScheme(t) && HasNoQuery(t) && IsQuery(query)
    ensures SanitizeTag(scheme + (t + query), registryUrl) == SanitizeTag(t, registryUrl)
    ensures ParseTag(scheme + (t + query)) == ParseTag(t)
  {
    SchemeComesOff(scheme, t, query);
  }

  // ---- REGISTRY_URL -------------------------------------------------------------

  predicate IsNetloc(a: string) {
    forall c <- a :: c !in {'/', '?', '#'}
  }

  lemma {:induction false} NetlocOf(a: string, rest: string)
    requires IsNetloc(a) && (rest == "" || rest[0] == '/')
    ensures Netloc(a + rest) == a
  {
    if a == "" {
      assert a + rest == rest;
    } else {
      assert a[0] in a && (a + rest)[1..] == a[1..] + rest;
      assert forall c <- a[1..] :: c in a;
      NetlocOf(a[1..], rest);
    }
  }

  lemma NotTrimmed(s: string)
    requires s != "" && !IsSpace(s[0]) && !IsSpace(s[|s| - 1]) && s[|s| - 1] != '/'
    ensures StripTrailingSlashes(Strip(s)) == s
  {}

  // REGISTRY_URL may be an authority, or a URL with or without a path; tags are printed with its authority.
  lemma BaseIsAuthority(scheme: string, a: string, path: string)
    requires scheme in {HTTP, HTTPS} && IsAuthority(a)
    requires path == "" || (path[0] == '/' && |path| > 1 && path[1] != '/' && path[|path| - 1] != '/'
                            && !IsSpace(path[|path| - 1]))
    ensures RegistryBase(scheme + a + path) == a && RegistryBase(a + path) == a
  {
    var rest := a + path;
    NetlocOf(a, path);
    assert a[0] in a && a[|a| - 1] in a;
    assert rest[|rest| - 1] == if path == "" then a[|a| - 1] else path[|path| - 1];
    NotTrimmed(rest);
    NoSchemeInside(a, path);
    var url := scheme + rest;
    assert scheme + a + path == url && url[|scheme|..] == rest;
    assert url[|url| - 1] == rest[|rest| - 1];
    NotTrimmed(url);
    if scheme == HTTPS {
      assert url[4] == 's' != HTTP[4];
    }
  }

  // A value without authority, such as a bare query, stands for itself up to its first slash.
  lemma BaseOfQuery(value: string)
    requires |value| > 0 && value[0] in {'?', '#'} && !IsSpace(value[|value| - 1]) && value[|value| - 1] != '/'
    ensures RegistryBase(value) == UntilSlash(value) != ""
  {
    NotTrimmed(value);
    assert HTTP[0] == HTTPS[0] == 'h' != value[0];
  }

  lemma NoSchemeInside(a: string, path: string)
    requires NoSlash(a) && (path == "" || (path[0] == '/' && |path| > 1 && path[1] != '/'))
    ensures !HasScheme(a + path)
  {
    if path == "" {
      assert a + path == a;
      assert HTTP[5] == '/' && HTTPS[6] == '/';
      assert |a| > 5 ==> a[5] in a;
      assert |a| > 6 ==> a[6] in a;
    } else {
      var rest := path[1..];
      assert path == "/" + rest && a + path == a + "/" + rest;
      NoSchemePrefix(a, rest, HTTP, 5);
      NoSchemePrefix(a, rest, HTTPS, 6);
    }
  }

  // ---- Host names -----------------------------------------------------------------

  predicate IsPlainName(name: string) {
    forall c <- name :: c !in {'@', ':', '[', ']', '/', '?', '#'}
  }

  lemma {:induction false} UntilOf(s: string, stop: char, rest: string)
    requires stop !in s && (rest == "" || rest[0] == stop)
    ensures Until(s + rest, stop) == s
  {
    if s == "" {
      assert s + rest == rest;
    } else {
      assert s[0] in s && (s + rest)[1..] == s[1..] + rest;
      UntilOf(s[1..], stop, rest);
    }
  }

  lemma {:induction false} NoAt(s: string)
    requires '@' !in s
    ensures AfterLastAt(s) == s
  {
    if s != "" {
      assert s[|s| - 1] in s;
      NoAt(s[..|s| - 1]);
    }
  }

  lemma {:induction false} AfterAt(user: string, s: string)
    requires '@' !in s
    ensures AfterLastAt(user + "@" + s) == s
  {
    var whole := user + "@" + s;
    if s == "" {
      assert whole[|whole| - 1] == '@';
    } else {
      assert s[|s| - 1] in s;
      assert whole[..|whole| - 1] == user + "@" + s[..|s| - 1];
      AfterAt(user, s[..|s| - 1]);
    }
  }

  lemma HostnameOf(authority: string, name: string, port: string)
    requires IsNetloc(authority) && IsPlainName(name) && IsPlainName(port)
    requires AfterLastAt(authority) in {name, name + ":" + port}
    ensures Hostname(authority) == Lower(name)
  {
    NetlocOf(authority, "");
    assert authority + "" == authority;
    var hostPort := AfterLastAt(authority);
    if hostPort == name {
      UntilOf(name, ':', "");
      assert name + "" == name;
    } else {
      UntilOf(name, ':', ":" + port);
      assert name + (":" + port) == hostPort;
    }
    assert '[' !in hostPort;
  }

  // The host name is what is left without port and user, in lower case.
  lemma HostnameIsName(user: string, name: string, port: string)
    requires IsPlainName(name) && IsPlainName(port) && IsNetloc(user)
    ensures Hostname(name) == Lower(name) && Hostname(name + ":" + port) == Lower(name)
    ensures Hostname(user + "@" + (name + ":" + port)) == Lower(name)
  {
    NoAt(name);
    NoAt(name + ":" + port);
    AfterAt(user, name + ":" + port);
    HostnameOf(name, name, port);
    HostnameOf(name + ":" + port, name, port);
    HostnameOf(user + "@" + (name + ":" + port), name, port);
  }

  // A tag keeps its host unless that is this machine's and REGISTRY_URL names another one.
  lemma HealsExactly(host: string, url: string)
    requires IsAuthority(RegistryBase(url)) && ConfiguredAuthority(url).Some?
    ensures var local, base := {"localhost", "127.0.0.1"}, RegistryBase(url);
            HealHost(host, url)
            == if Hostname(host) in local && Hostname(base) != "" && Hostname(base) !in local then base else host
  {
    ConfiguredIsBase(url);
  }

  // ---- Paths and versions ------------------------------------------------------------

  // What stands behind the last colon: no slash, colon or space in it.
  predicate IsVersion(version: string) {
    version != "" && forall c <- version :: c !in {'/', ':', '?', '#'} && !IsSpace(c)
  }

  // name:version, or the name alone.
  function Versioned(name: string, version: Option<string>): string {
    if version.Some? then name + ":" + version.value else name
  }

  // host/path/name:version
  function Written(host: string, path: seq<string>, name: string, version: Option<string>): seq<string> {
    [host] + path + [Versioned(name, version)]
  }

  predicate IsRawName(s: string) {
    s != "" && forall c <- s :: c !in {'/', '?', '#', ':'}
  }

  lemma VersionedFacts(name: string, version: Option<string>)
    requires IsRawName(name) && (version.Some? ==> IsVersion(version.value))
    ensures SplitLastColon(Versioned(name, version)) == (if version.Some? then Some((name, version.value)) else None)
    ensures NoSlash(Versioned(name, version)) && Versioned(name, version) != ""
    ensures SanitizeLast(Versioned(name, version)) == Versioned(Segment(name), version)
  {
    if version.Some? {
      SplitLastColonOf(name, version.value);
    } else {
      SplitLastColonTag(name);
    }
  }

  function Segments(path: seq<string>): seq<string> {
    seq(|path|, i requires 0 <= i < |path| => Segment(path[i]))
  }

  lemma {:induction false} PathIsSegments(path: seq<string>, name: string, version: Option<string>)
    requires IsRawName(name) && (version.Some? ==> IsVersion(version.value))
    ensures SanitizePath(path + [Versioned(name, version)]) == Segments(path) + [Versioned(Segment(name), version)]
  {
    var whole := path + [Versioned(name, version)];
    VersionedFacts(name, version);
    if path != [] {
      assert whole[1..] == path[1..] + [Versioned(name, version)];
      PathIsSegments(path[1..], name, version);
      assert Segments(path) == [Segment(path[0])] + Segments(path[1..]);
    }
  }

  // The tag as text has nothing to strip, no scheme, and these parts.
  predicate IsPlainTag(parts: seq<string>) {
    ProperParts(parts) && Strip(Join(parts)) == Join(parts) && !HasScheme(Join(parts))
  }

  lemma PlainTagParts(parts: seq<string>)
    requires IsPlainTag(parts) && parts != []
    ensures PathParts(WithoutScheme(Strip(Join(parts)))) == parts && Join(parts) != ""
  {
    PathPartsOfJoin(parts);
    assert parts[0] in parts;
  }

  // Without the /v2 that may follow the host.
  lemma V2IsDropped(host: string, rest: seq<string>, v2: bool)
    requires rest != [] && !IsV2(host) && (!v2 ==> !IsV2(rest[0]))
    ensures DropV2([host] + ((if v2 then ["v2"] else []) + rest)) == [host] + rest
  {
    var given := [host] + ((if v2 then ["v2"] else []) + rest);
    assert Lower("v2") == "v2";
    if v2 {
      assert given[1] == "v2" && given[2..] == rest;
    } else {
      assert given[1] == rest[0];
    }
  }

  // Sanitizing a tag heals its host, sanitizes every name, and keeps the version, whatever it is; one /v2 after
  // the host is dropped.
  lemma SanitizedForm(host: string, path: seq<string>, name: string, version: Option<string>, v2: bool, url: string)
    requires IsRawName(name) && (version.Some? ==> IsVersion(version.value)) && !IsV2(host)
    requires !v2 ==> !IsV2((path + [Versioned(name, version)])[0])
    requires IsPlainTag(Written(host, (if v2 then ["v2"] else []) + path, name, version))
    ensures SanitizeTag(Join(Written(host, (if v2 then ["v2"] else []) + path, name, version)), url)
            == Join(Written(HealHost(host, url), Segments(path), Segment(name), version))
  {
    var given, rest := Written(host, (if v2 then ["v2"] else []) + path, name, version), path + [Versioned(name, version)];
    PlainTagParts(given);
    assert given == [host] + ((if v2 then ["v2"] else []) + rest);
    V2IsDropped(host, rest, v2);
    SanitizedRest(host, path, name, version, url);
  }

  lemma SanitizedRest(host: string, path: seq<string>, name: string, version: Option<string>, url: string)
    requires IsRawName(name) && (version.Some? ==> IsVersion(version.value))
    ensures var kept := [host] + (path + [Versioned(name, version)]);
            [HealHost(kept[0], url)] + SanitizePath(kept[1..])
            == Written(HealHost(host, url), Segments(path), Segment(name), version)
  {
    var kept := [host] + (path + [Versioned(name, version)]);
    assert kept[1..] == path + [Versioned(name, version)];
    PathIsSegments(path, name, version);
  }

  lemma {:induction false} JoinEnds(parts: seq<string>)
    requires ProperParts(parts) && parts != []
    ensures var j := Join(parts); j != "" && j[0] != '/' && j[|j| - 1] != '/'
  {
    var first := parts[0];
    assert first in parts && first[0] in first && first[|first| - 1] in first;
    if |parts| > 1 {
      JoinEnds(parts[1..]);
    }
  }

  lemma ParsedPath(given: seq<string>, path: seq<string>, name: string, version: Option<string>)
    requires IsRawName(name) && (version.Some? ==> IsVersion(version.value)) && ProperParts(path) && |given| >= 2
    requires path + [Versioned(name, version)] == if IsV2(given[1]) then given[2..] else given[1..]
    ensures ParseParts(given) == Artefact(given[0], Join(path + [name]), if version.Some? then version.value else "latest")
  {
    var rest := path + [Versioned(name, version)];
    VersionedFacts(name, version);
    assert rest[..|rest| - 1] == path;
    JoinEnds(path + [name]);
  }

  // Parsing it gives the host, the path without one /v2 after the host, and the version, latest if there is none.
  lemma ParsedForm(host: string, path: seq<string>, name: string, version: Option<string>, v2: bool)
    requires IsRawName(name) && (version.Some? ==> IsVersion(version.value))
    requires !v2 ==> !IsV2((path + [Versioned(name, version)])[0])
    requires IsPlainTag(Written(host, (if v2 then ["v2"] else []) + path, name, version))
    ensures ParseTag(Join(Written(host, (if v2 then ["v2"] else []) + path, name, version)))
            == Artefact(host, Join(path + [name]), if version.Some? then version.value else "latest")
  {
    var given := Written(host, (if v2 then ["v2"] else []) + path, name, version);
    var rest := path + [Versioned(name, version)];
    PlainTagParts(given);
    forall p | p in path ensures p in given {}
    AfterV2(host, rest, v2);
    assert given == [host] + ((if v2 then ["v2"] else []) + rest);
    ParsedPath(given, path, name, version);
  }

  lemma AfterV2(host: string, rest: seq<string>, v2: bool)
    requires rest != [] && (!v2 ==> !IsV2(rest[0]))
    ensures var given := [host] + ((if v2 then ["v2"] else []) + rest);
            |given| >= 2 && given[0] == host && rest == if IsV2(given[1]) then given[2..] else given[1..]
  {
    assert Lower("v2") == "v2";
  }
}
