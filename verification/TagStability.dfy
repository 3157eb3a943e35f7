/**
  When sanitizing a tag twice is sanitizing it once (app/main/routes.py), for every tag text.
 */
module TagStability {
  import opened Wrappers
  import opened Text
  import opened RegistrySegment
  import opened RegistryTag

  predicate StartsSolid(s: string) {
    s != "" && !IsSpace(s[0])
  }

  predicate EndsSolid(s: string) {
    s != "" && !IsSpace(s[|s| - 1])
  }

  // ---- Parts of any text are proper ---------------------------------------------

  lemma {:induction false} UntilSlashHasNone(s: string)
    ensures NoSlash(UntilSlash(s)) && UntilSlash(s) == s[..|UntilSlash(s)|]
    ensures |UntilSlash(s)| < |s| ==> s[|UntilSlash(s)|] == '/'
  {
    if s != "" && s[0] != '/' {
      UntilSlashHasNone(s[1..]);
    }
  }

  lemma {:induction false} PathPartsProper(s: string)
    ensures ProperParts(PathParts(s))
    decreases |s|
  {
    if s != "" {
      var head := UntilSlash(s);
      UntilSlashHasNone(s);
      PathPartsProper(if |head| < |s| then s[|head| + 1..] else "");
    }
  }

  lemma {:induction false} NetlocHasNoSlash(s: string)
    ensures NoSlash(Netloc(s))
  {
    if s != "" && s[0] !in {'/', '?', '#'} {
      NetlocHasNoSlash(s[1..]);
    }
  }

  lemma {:induction false} StripSelects(s: string)
    ensures forall c :: c in Strip(s) ==> c in s
  {
    if s != "" && IsSpace(s[0]) {
      StripSelects(s[1..]);
    } else if s != "" && IsSpace(s[|s| - 1]) {
      StripSelects(s[..|s| - 1]);
    }
  }

  // The configured authority has no slash and nothing to strip.
  lemma AuthorityIsPlain(url: string)
    ensures ConfiguredAuthority(url).Some? ==>
              var a := ConfiguredAuthority(url).value; NoSlash(a) && StartsSolid(a) && EndsSolid(a)
  {
    if ConfiguredAuthority(url).Some? {
      var netloc := Netloc(AfterScheme(Strip(url)));
      NetlocHasNoSlash(AfterScheme(Strip(url)));
      StripSelects(netloc);
      StripIsStripped(netloc);
    }
  }

  // ---- Sanitized parts -------------------------------------------------------------

  lemma {:induction false} SplitSelects(s: string)
    ensures SplitLastColon(s).Some? ==>
              s == SplitLastColon(s).value.0 + ":" + SplitLastColon(s).value.1
  {
    if s != "" && s[|s| - 1] != ':' {
      SplitSelects(s[..|s| - 1]);
      assert s == s[..|s| - 1] + [s[|s| - 1]];
    }
  }

  lemma CleanIsSolid(s: string)
    requires Clean(s)
    ensures NoSlash(s) && StartsSolid(s) && EndsSolid(s)
  {
    CleanFacts(s);
    assert s[|s| - 1] in s;
  }

  // A sanitized component starts solid and has no slash; it ends solid if the part it came from did.
  lemma SanitizedComponent(part: string)
    requires NoSlash(part)
    ensures NoSlash(SanitizeLast(part)) && StartsSolid(SanitizeLast(part))
    ensures EndsSolid(part) ==> EndsSolid(SanitizeLast(part))
  {
    match SplitLastColon(part)
    case None =>
      SegmentIsClean(part);
      CleanIsSolid(Segment(part));
    case Some((name, tag)) =>
      SegmentIsClean(name);
      CleanIsSolid(Segment(name));
      SplitSelects(part);
      assert part == name + ":" + tag;
      TailSelects(name + ":", tag);
      if tag != "" {
        var c := Segment(name) + ":" + tag;
        assert c[|c| - 1] == tag[|tag| - 1] == part[|part| - 1];
      }
  }

  lemma TailSelects(s: string, t: string)
    ensures forall c :: c in t ==> c in s + t
  {
    forall c | c in t ensures c in s + t {
      var i :| 0 <= i < |t| && t[i] == c;
      assert (s + t)[|s| + i] == c;
    }
  }

  predicate SolidParts(parts: seq<string>) {
    forall i :: 0 <= i < |parts| ==> NoSlash(parts[i]) && StartsSolid(parts[i])
  }

  lemma SolidIsProper(parts: seq<string>)
    requires SolidParts(parts)
    ensures ProperParts(parts)
  {}

  lemma SegmentIsSolid(part: string)
    ensures NoSlash(Segment(part)) && StartsSolid(Segment(part)) && EndsSolid(Segment(part))
  {
    SegmentIsClean(part);
    CleanIsSolid(Segment(part));
  }

  lemma SanitizedPathIsSolid(path: seq<string>)
    requires ProperParts(path)
    ensures SolidParts(SanitizePath(path)) && |SanitizePath(path)| == |path|
    ensures path != [] && EndsSolid(path[|path| - 1]) ==> EndsSolid(SanitizePath(path)[|path| - 1])
  {
    SanitizePathComponents(path);
    forall k | 0 <= k < |path|
      ensures NoSlash(SanitizePath(path)[k]) && StartsSolid(SanitizePath(path)[k])
      ensures EndsSolid(path[k]) ==> EndsSolid(SanitizePath(path)[k])
    {
      assert path[k] in path;
      SanitizedComponent(path[k]);
      SegmentIsSolid(path[k]);
    }
  }

  // The parts of a sanitized tag: all of them proper, and those after the host solid.
  predicate Sanitized(parts: seq<string>) {
    parts != [] ==> parts[0] != "" && NoSlash(parts[0]) && SolidParts(parts[1..])
  }

  lemma SanitizedAre(parts: seq<string>, url: string)
    requires ProperParts(parts)
    ensures Sanitized(SanitizeParts(parts, url))
  {
    var kept := DropV2(parts);
    if kept != [] {
      assert kept[0] in parts && forall p :: p in kept ==> p in parts;
      AuthorityIsPlain(url);
      SanitizedPathIsSolid(kept[1..]);
      assert SanitizeParts(parts, url)[1..] == SanitizePath(kept[1..]);
    }
  }

  lemma SanitizedIsProper(parts: seq<string>)
    requires Sanitized(parts)
    ensures ProperParts(parts)
  {
    forall p | p in parts ensures p != "" && NoSlash(p) {
      var i :| 0 <= i < |parts| && parts[i] == p;
      if i > 0 {
        assert parts[1..][i - 1] == p;
      }
    }
  }

  // ---- Their text ---------------------------------------------------------------------

  // Every slash is followed by something solid.
  predicate SolidSlashes(s: string) {
    forall i :: 0 <= i < |s| && s[i] == '/' ==> i + 1 < |s| && s[i + 1] != '/' && !IsSpace(s[i + 1])
  }

  lemma ConsIsSolid(head: string, tail: string)
    requires NoSlash(head) && SolidSlashes(tail) && StartsSolid(tail) && tail[0] != '/'
    ensures SolidSlashes(head + "/" + tail)
  {
    var s := head + "/" + tail;
    assert forall j :: 0 <= j < |head| ==> s[j] == head[j] && head[j] in head;
    forall i | 0 <= i < |s| && s[i] == '/' ensures i + 1 < |s| && s[i + 1] != '/' && !IsSpace(s[i + 1]) {
      if i == |head| {
        assert s[i + 1] == tail[0];
      } else if i > |head| {
        assert tail[i - |head| - 1] == s[i];
        assert tail[i - |head|] == s[i + 1];
      }
    }
  }

  lemma {:induction false} JoinIsSolid(parts: seq<string>)
    requires Sanitized(parts)
    ensures SolidSlashes(Join(parts)) && (parts != [] ==> Join(parts) != "" && Join(parts)[0] == parts[0][0])
  {
    if |parts| == 1 {
      assert forall i :: 0 <= i < |parts[0]| ==> parts[0][i] in parts[0];
    } else if parts != [] {
      assert parts[1..][0] == parts[1];
      assert parts[1][0] in parts[1];
      JoinIsSolid(parts[1..]);
      ConsIsSolid(parts[0], Join(parts[1..]));
    }
  }

  lemma {:induction false} StripKeepsSolid(s: string)
    requires SolidSlashes(s)
    ensures SolidSlashes(Strip(s))
  {
    if s != "" && IsSpace(s[0]) {
      StripKeepsSolid(s[1..]);
    } else if s != "" && IsSpace(s[|s| - 1]) {
      StripKeepsSolid(s[..|s| - 1]);
    }
  }

  lemma SchemeIsNotSolid(s: string)
    ensures HasScheme(s) ==> !SolidSlashes(s)
  {
    if StartsWith(s, HTTP) {
      assert s[5] == HTTP[5] == '/' && s[6] == HTTP[6] == '/';
    } else if StartsWith(s, HTTPS) {
      assert s[6] == HTTPS[6] == '/' && s[7] == HTTPS[7] == '/';
    }
  }

  // What follows the first part of such a text.
  lemma AfterFirstPart(s: string)
    requires SolidSlashes(s) && s != "" && |UntilSlash(s)| < |s|
    ensures var rest := s[|UntilSlash(s)| + 1..];
            SolidSlashes(rest) && StartsSolid(rest) && (EndsSolid(s) ==> EndsSolid(rest))
  {
    UntilSlashHasNone(s);
    var k := |UntilSlash(s)|;
    var rest := s[k + 1..];
    assert rest[0] == s[k + 1];
    forall i | 0 <= i < |rest| && rest[i] == '/' ensures i + 1 < |rest| && rest[i + 1] != '/' && !IsSpace(rest[i + 1]) {
      assert s[k + 1 + i] == '/';
    }
  }

  // Its parts all start solid if it does, and the last one ends as it does.
  lemma {:induction false} PartsOfSolid(s: string)
    requires SolidSlashes(s) && (s != "" ==> StartsSolid(s))
    ensures SolidParts(PathParts(s))
    ensures EndsSolid(s) ==> PathParts(s) != [] && EndsSolid(PathParts(s)[|PathParts(s)| - 1])
    decreases |s|
  {
    if s != "" {
      var head := UntilSlash(s);
      UntilSlashHasNone(s);
      if |head| < |s| {
        AfterFirstPart(s);
        PartsOfSolid(s[|head| + 1..]);
      } else {
        assert head == s;
        assert PathParts("") == [];
      }
    }
  }

  lemma {:induction false} JoinEnds(parts: seq<string>)
    requires Sanitized(parts) && parts != [] && EndsSolid(parts[|parts| - 1])
    ensures EndsSolid(Join(parts))
  {
    if |parts| > 1 {
      assert parts[1..][|parts| - 2] == parts[|parts| - 1];
      assert parts[1..][0] != "" && NoSlash(parts[1..][0]);
      JoinEnds(parts[1..]);
    }
  }

  // ---- Twice is once -----------------------------------------------------------------------

  lemma PlainSanitize(s: string, url: string)
    requires SolidSlashes(s)
    ensures SanitizeTag(s, url) == Join(SanitizeParts(PathParts(Strip(s)), url))
    ensures SolidSlashes(Strip(s))
  {
    StripKeepsSolid(s);
    SchemeIsNotSolid(Strip(s));
  }

  lemma OnePart(s: string)
    requires NoSlash(s)
    ensures |PathParts(Strip(s))| <= 1
  {
    StripSelects(s);
    if Strip(s) != "" {
      PathPartsOne(Strip(s));
    }
  }

  lemma HealedEnds(host: string, url: string)
    ensures StartsSolid(host) ==> StartsSolid(HealHost(host, url))
    ensures EndsSolid(host) ==> EndsSolid(HealHost(host, url))
  {
    AuthorityIsPlain(url);
  }

  lemma KeptParts(parts: seq<string>)
    ensures var kept := DropV2(parts);
            && (forall i :: 0 <= i < |kept| ==> kept[i] in parts)
            && (kept != [] && (|kept| > 1 || |parts| == 1) ==> kept[|kept| - 1] == parts[|parts| - 1])
  {}

  // What is left of solid parts that end solid starts solid, and ends solid unless a lone host is left of two parts.
  lemma SanitizedEnds(parts: seq<string>, url: string)
    requires SolidParts(parts) && parts != [] && EndsSolid(parts[|parts| - 1])
    ensures var r := SanitizeParts(parts, url);
            r != [] ==> StartsSolid(r[0]) && (|r| > 1 || |parts| == 1 ==> EndsSolid(r[|r| - 1]))
  {
    var kept := DropV2(parts);
    KeptParts(parts);
    if kept != [] {
      HealedEnds(kept[0], url);
      TailEnds(kept[1..]);
      assert |kept| > 1 ==> kept[1..][|kept| - 2] == kept[|kept| - 1];
    }
  }

  lemma TailEnds(path: seq<string>)
    ensures |SanitizePath(path)| == |path|
    ensures ProperParts(path) && path != [] && EndsSolid(path[|path| - 1]) ==> EndsSolid(SanitizePath(path)[|path| - 1])
  {
    SanitizePathComponents(path);
    if ProperParts(path) {
      SanitizedPathIsSolid(path);
    }
  }

  // A sanitized tag that sanitizing leaves alone has nothing to strip.
  lemma StableIsStripped(parts: seq<string>, url: string)
    requires Sanitized(parts) && SanitizeTag(Join(parts), url) == Join(parts)
    ensures Stripped(Join(parts))
  {
    var s := Join(parts);
    JoinIsSolid(parts);
    PlainSanitize(s, url);
    StripIsStripped(s);
    var again := PathParts(Strip(s));
    PartsOfSolid(Strip(s));
    var r := SanitizeParts(again, url);
    if r != [] {
      SolidIsProper(again);
      SanitizedAre(again, url);
      SanitizedEnds(again, url);
      JoinIsSolid(r);
      if |r| == 1 {
        OnePart(s);
      }
      JoinEnds(r);
    }
  }

  lemma StrippedStrips(s: string)
    requires Stripped(s)
    ensures Strip(s) == s
  {}

  // For any tag, sanitizing again changes nothing exactly when the first pass left nothing to strip at either
  // end and no v2 among the first two parts.
  lemma SanitizeStableExactly(tag: string, url: string)
    ensures var once := SanitizeTag(tag, url);
            var parts := PathParts(once);
            SanitizeTag(once, url) == once
            <==> Stripped(once) && !(|parts| >= 1 && IsV2(parts[0])) && !(|parts| >= 2 && IsV2(parts[1]))
  {
    var given := PathParts(WithoutScheme(Strip(tag)));
    var parts := SanitizeParts(given, url);
    PathPartsProper(WithoutScheme(Strip(tag)));
    SanitizedAre(given, url);
    SanitizedIsProper(parts);
    PathPartsOfJoin(parts);
    var once := Join(parts);
    if Stripped(once) {
      StrippedStrips(once);
      JoinIsSolid(parts);
      PlainSanitize(once, url);
      SanitizedAre(parts, url);
      SanitizedIsProper(SanitizeParts(parts, url));
      PathPartsOfJoin(SanitizeParts(parts, url));
      SanitizePartsStableExactly(given, url);
    } else if SanitizeTag(once, url) == once {
      StableIsStripped(parts, url);
    }
  }

  // A tag with a doubled v2 segment `w` loses one of them per pass.
  lemma DoubledV2NotStable(host: string, w: string, path: seq<string>, url: string)
    requires IsAuthority(host) && HealHost(host, url) == host && Clean(w) && IsV2(w) && forall p <- path :: Clean(p)
    ensures var once := Join([host] + ([w] + path));
            && SanitizeTag(Join([host] + ([w] + ([w] + path))), url) == once
            && SanitizeTag(once, url) == Join([host] + path) != once
  {
    CleanTagSanitizes(host, [w] + ([w] + path), url);
    CleanTagSanitizes(host, [w] + path, url);
    DoubledV2InParts(host, w, path, url);
    CleanTagSanitizes(host, path, url);
    assert |[host] + ([w] + path)| != |[host] + path|;
  }

  lemma CleanTagSanitizes(host: string, path: seq<string>, url: string)
    requires IsAuthority(host) && forall p <- path :: Clean(p)
    ensures SanitizeTag(Join([host] + path), url) == Join(SanitizeParts([host] + path, url))
    ensures PathParts(Join([host] + path)) == [host] + path
  {
    var parts := [host] + path;
    forall i | 0 <= i < |parts| ensures NoSlash(parts[i]) && StartsSolid(parts[i]) && EndsSolid(parts[i]) {
      if i == 0 {
        assert host[0] in host && host[|host| - 1] in host;
      } else {
        assert parts[i] == path[i - 1] && path[i - 1] in path;
        CleanIsSolid(parts[i]);
      }
    }
    assert Sanitized(parts);
    SanitizedIsProper(parts);
    PathPartsOfJoin(parts);
    JoinIsSolid(parts);
    JoinEnds(parts);
    StrippedStrips(Join(parts));
    PlainSanitize(Join(parts), url);
  }

  lemma SlashStripsNothing(rest: string)
    requires EndsSolid(rest)
    ensures Strip("/" + rest) == "/" + rest && !HasScheme("/" + rest)
  {
    var tag := "/" + rest;
    assert tag[|tag| - 1] == rest[|rest| - 1];
    StrippedStrips(tag);
    assert tag[0] != HTTP[0] && tag[0] != HTTPS[0];
  }

  lemma SlashAddsNoPart(rest: string)
    ensures PathParts("/" + rest) == PathParts(rest)
  {
    assert ("/" + rest)[1..] == rest && UntilSlash("/" + rest) == "";
  }

  // A slash in front is dropped, after the text was stripped.
  lemma LeadingSlash(rest: string, url: string)
    requires EndsSolid(rest)
    ensures SanitizeTag("/" + rest, url) == Join(SanitizeParts(PathParts(rest), url))
  {
    SlashStripsNothing(rest);
    SlashAddsNoPart(rest);
  }

  lemma SanitizedPair(host: string, image: string, url: string)
    requires HealHost(host, url) == host && Clean(image) && !IsV2(image) && !IsV2(host)
    ensures SanitizeParts([host, image], url) == [host, image]
  {
    CleanHasNoColon(image);
    CleanFacts(image);
    var parts := [host, image];
    assert DropV2(parts) == parts && parts[1..] == [image];
    assert SanitizePath([image]) == [image];
  }

  // So a tag in which a slash hides a space is not stable either.
  lemma HiddenSpaceNotStable(host: string, image: string, url: string)
    requires NoSlash(host) && host != "" && IsSpace(host[0]) && HealHost(host, url) == host && !IsV2(host)
    requires Clean(image) && !IsV2(image)
    ensures var once := SanitizeTag("/" + Join([host, image]), url);
            once == Join([host, image]) && SanitizeTag(once, url) != once
  {
    var parts := [host, image];
    CleanIsSolid(image);
    assert parts[1..] == [image];
    SanitizedIsProper(parts);
    JoinIsSolid(parts);
    JoinEnds(parts);
    PathPartsOfJoin(parts);
    SanitizedPair(host, image, url);
    assert host[0] in host;
    LeadingSlash(Join(parts), url);
    SanitizeStableExactly("/" + Join(parts), url);
  }
}
