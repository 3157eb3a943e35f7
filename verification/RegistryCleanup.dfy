/**
  Registry cleanup over an unreliable network (app/registry_cleanup.py): resolve the tag to
  a digest, then delete the manifest by digest, as in "Pulling manifests" and "Deleting
  Manifests" of the OCI Distribution Specification.

  A request may take effect and still lose its reply, or be answered by a gateway's 5xx.
  Below 500 the registry tells the truth. Nobody else writes meanwhile.
 */
module RegistryCleanup {
  import opened Wrappers
  import RegistryTag

  // ---- The registry ---------------------------------------------------------

  type Digest = string

  // host and repository name
  datatype Repo = Repo(host: string, name: string)

  // repository to tag to digest
  type Registry = map<Repo, map<string, Digest>>

  function Lookup(w: Registry, repo: Repo, tag: string): Option<Digest> {
    if repo in w && tag in w[repo] then Some(w[repo][tag]) else None
  }

  predicate Holds(w: Registry, repo: Repo, digest: Digest) {
    repo in w && digest in w[repo].Values
  }

  // Deleting a manifest takes every tag of that repository that pointed to it along.
  function Remove(w: Registry, repo: Repo, digest: Digest): Registry {
    if repo in w then w[repo := map t | t in w[repo] && w[repo][t] != digest :: w[repo][t]] else w
  }

  // What a tag resolves to, before and after a manifest is removed: that repository loses the tags of that digest,
  // and nothing else changes.
  lemma RemoveExactly(w: Registry, repo: Repo, digest: Digest, r: Repo, tag: string, d: Digest)
    ensures Lookup(w, r, tag) == Some(d) <==> r in w && tag in w[r] && w[r][tag] == d
    ensures Lookup(Remove(w, repo, digest), r, tag) == Some(d)
            <==> r in w && tag in w[r] && w[r][tag] == d && !(r == repo && d == digest)
  {}

  // ---- One request -----------------------------------------------------------

  datatype Request =
    | Head(repo: Repo, tag: string)
    | Get(repo: Repo, tag: string)
    | Delete(repo: Repo, digest: Digest)

  datatype Response = Response(status: int, digest: Option<Digest>)

  newtype SuccessCode = x: int | 200 <= x < 400 witness 200
  newtype RefusalCode = x: int | 400 <= x < 500 && x != 404 witness 405
  newtype ServerError = x: int | 500 <= x < 600 witness 500

  // What becomes of one attempt.
  datatype Fate =
    | Dropped(applied: bool)                              // requests.RequestException
    | Broken(error: ServerError, applied: bool)           // a 5xx reply
    | Refused(code: RefusalCode)                          // a 4xx reply other than 404; nothing happened
    | Served(success: SuccessCode, showsDigest: bool)     // handled, and answered accordingly

  function Effect(w: Registry, req: Request, fate: Fate): Registry {
    if req.Delete? && (fate.Served? || (!fate.Refused? && fate.applied)) then Remove(w, req.repo, req.digest) else w
  }

  // None stands for the exception.
  function Reply(w: Registry, req: Request, fate: Fate): Option<Response> {
    match fate
    case Dropped(_) => None
    case Broken(error, _) => Some(Response(error as int, None))
    case Refused(code) => Some(Response(code as int, None))
    case Served(success, showsDigest) =>
      if req.Delete? then Some(Response(if Holds(w, req.repo, req.digest) then success as int else 404, None))
      else
        var digest := Lookup(w, req.repo, req.tag);
        Some(if digest.None? then Response(404, None)
             else Response(success as int, if showsDigest then digest else None))
  }

  // ---- Retrying -----------------------------------------------------------------

  // The fates of all attempts, in the order they are made.
  type Network = nat -> Fate

  // The result of a call that talks to the registry: what it returned, the registry after it, the attempts used up.
  datatype Exchange<T> = Exchange(result: T, after: Registry, used: nat)

  const ATTEMPTS: nat := 3

  // The attempts from `attempt` on; `last` is the last 5xx reply so far.
  function RetryFrom(w: Registry, req: Request, net: Network, at: nat, attempt: nat, last: Option<Response>)
    : Exchange<Option<Response>>
    requires attempt < ATTEMPTS
    decreases ATTEMPTS - attempt
  {
    var reply := Reply(w, req, net(at));
    var after := Effect(w, req, net(at));
    if reply.Some? && (reply.value.status < 500 || attempt == ATTEMPTS - 1) then Exchange(reply, after, at + 1)
    else
      var last' := if reply.Some? then reply else last;
      if attempt == ATTEMPTS - 1 then Exchange(last', after, at + 1)
      else RetryFrom(after, req, net, at + 1, attempt + 1, last')
  }

  // _request_with_retry
  function Retry(w: Registry, req: Request, net: Network, at: nat): Exchange<Option<Response>> {
    RetryFrom(w, req, net, at, 0, None)
  }

  method RequestWithRetry(w: Registry, req: Request, net: Network, at: nat)
    returns (resp: Option<Response>, after: Registry, used: nat)
    ensures Exchange(resp, after, used) == Retry(w, req, net, at)
  {
    var lastResp: Option<Response> := None;
    after, used := w, at;
    for attempt: nat := 0 to ATTEMPTS
      invariant used == at + attempt
      invariant attempt < ATTEMPTS ==> Retry(w, req, net, at) == RetryFrom(after, req, net, used, attempt, lastResp)
      invariant attempt == ATTEMPTS ==> Retry(w, req, net, at) == Exchange(lastResp, after, used)
    {
      resp := Reply(after, req, net(used));
      after := Effect(after, req, net(used));
      used := used + 1;
      if resp.Some? {
        if resp.value.status < 500 || attempt == ATTEMPTS - 1 {
          return;
        }
        lastResp := resp;
      }
    }
    resp := lastResp;
  }

  // A reply that ends the retrying at once.
  predicate IsFinal(fate: Fate) {
    fate.Refused? || fate.Served?
  }

  // The last 5xx among these attempts.
  function LastError(net: Network, at: nat, end: nat): Option<int>
    requires at <= end
    decreases end - at
  {
    if at == end then None
    else
      var later := LastError(net, at + 1, end);
      if later.Some? then later else if net(at).Broken? then Some(net(at).error as int) else None
  }

  lemma ReplyByFate(w: Registry, req: Request, fate: Fate)
    ensures var reply := Reply(w, req, fate);
            && (IsFinal(fate) <==> reply.Some? && reply.value.status < 500)
            && (fate.Broken? ==> reply == Some(Response(fate.error as int, None)) && reply.value.status >= 500)
            && (fate.Dropped? <==> reply.None?)
  {}

  lemma {:induction false} RetryFromMeaning(w: Registry, req: Request, net: Network, at: nat, attempt: nat,
                                            last: Option<Response>)
    requires attempt < ATTEMPTS && (last.Some? ==> last.value.status >= 500)
    ensures var r, end := RetryFrom(w, req, net, at, attempt, last), at + ATTEMPTS - attempt;
            && at < r.used <= end
            && (forall k | at <= k < r.used - 1 :: !IsFinal(net(k)))
            && if IsFinal(net(r.used - 1)) then r.result.Some? && r.result.value.status < 500
               else
                 var status := if r.result.Some? then Some(r.result.value.status) else None;
                 var before := if last.Some? then Some(last.value.status) else None;
                 r.used == end && status == if LastError(net, at, end).Some? then LastError(net, at, end) else before
    decreases ATTEMPTS - attempt
  {
    var reply := Reply(w, req, net(at));
    ReplyByFate(w, req, net(at));
    if !IsFinal(net(at)) {
      if attempt == ATTEMPTS - 1 {
        assert LastError(net, at + 1, at + 1) == None;
      } else {
        RetryFromMeaning(Effect(w, req, net(at)), req, net, at + 1, attempt + 1, if reply.Some? then reply else last);
      }
    }
  }

  // From the fates alone: a request stops at its first reply below 500, or after three attempts with the
  // last 5xx reply there was, or with the exception exactly when nothing was answered.
  lemma RetryMeaning(w: Registry, req: Request, net: Network, at: nat)
    ensures var r := Retry(w, req, net, at);
            && at < r.used <= at + ATTEMPTS
            && (forall k | at <= k < r.used - 1 :: !IsFinal(net(k)))
            && (if IsFinal(net(r.used - 1)) then r.result.Some? && r.result.value.status < 500
                else r.used == at + ATTEMPTS
                     && (if r.result.Some? then Some(r.result.value.status) else None) == LastError(net, at, at + ATTEMPTS))
  {
    RetryFromMeaning(w, req, net, at, 0, None);
  }

  // A reply below 500 settles the request: it tells what the registry held, and a delete is in effect.
  predicate Settled(w: Registry, req: Request, resp: Option<Response>, after: Registry) {
    resp.Some? && resp.value.status < 500 ==>
      var status, digest := resp.value.status, resp.value.digest;
      if req.Delete? then (status < 400 || status == 404 ==> after == Remove(w, req.repo, req.digest))
      else
        && (status == 404 ==> Lookup(w, req.repo, req.tag).None?)
        && (status < 400 ==> Lookup(w, req.repo, req.tag).Some?)
        && (digest.Some? ==> status < 400 && Lookup(w, req.repo, req.tag) == digest)
  }

  // `w` is what `start` can have become: a read never changes it, a delete either took effect or did not.
  predicate Became(start: Registry, req: Request, w: Registry) {
    if req.Delete? then w in {start, Remove(start, req.repo, req.digest)} else w == start
  }

  lemma AttemptSettles(start: Registry, w: Registry, req: Request, fate: Fate)
    requires Became(start, req, w)
    ensures Became(start, req, Effect(w, req, fate)) && Settled(start, req, Reply(w, req, fate), Effect(w, req, fate))
  {
    if req.Delete? {
      RemoveTwice(start, req.repo, req.digest);
      if !Holds(w, req.repo, req.digest) {
        RemoveAbsent(w, req.repo, req.digest);
      }
    }
  }

  // So it is with all attempts of a request.
  lemma {:induction false} RetrySettles(w: Registry, req: Request, net: Network, at: nat, attempt: nat,
                                        last: Option<Response>, start: Registry)
    requires attempt < ATTEMPTS && (last.Some? ==> last.value.status >= 500) && Became(start, req, w)
    ensures var r := RetryFrom(w, req, net, at, attempt, last);
            Settled(start, req, r.result, r.after) && Became(start, req, r.after)
    decreases ATTEMPTS - attempt
  {
    AttemptSettles(start, w, req, net(at));
    var reply, after := Reply(w, req, net(at)), Effect(w, req, net(at));
    if attempt < ATTEMPTS - 1 && !(reply.Some? && reply.value.status < 500) {
      RetrySettles(after, req, net, at + 1, attempt + 1, if reply.Some? then reply else last, start);
    }
  }

  lemma RemoveTwice(w: Registry, repo: Repo, digest: Digest)
    ensures Remove(Remove(w, repo, digest), repo, digest) == Remove(w, repo, digest)
  {
    if repo in w {
      var once := Remove(w, repo, digest);
      assert once[repo] == Remove(once, repo, digest)[repo];
    }
  }

  lemma RemoveAbsent(w: Registry, repo: Repo, digest: Digest)
    requires !Holds(w, repo, digest)
    ensures Remove(w, repo, digest) == w
  {
    if repo in w {
      assert Remove(w, repo, digest)[repo] == w[repo];
    }
  }

  // ---- Resolve, then delete --------------------------------------------------------

  datatype Failure =
    | BadTag
    | NetworkError
    | HeadFailed(status: int)
    | NoDigest(status: int)
    | DeleteFailed(status: int)

  datatype Resolution = Resolved(digest: Digest) | Missing | Unresolved(failure: Failure)

  // What a HEAD or GET answer says on its own; None when it does not settle the matter.
  function ReadAnswer(resp: Response): Option<Resolution> {
    if resp.status == 404 then Some(Missing)
    else if resp.status < 400 && resp.digest.Some? then Some(Resolved(resp.digest.value))
    else None
  }

  // resolve_manifest_digest: HEAD first, GET when HEAD neither settles it nor fails hard
  function ResolveManifestDigest(w: Registry, repo: Repo, tag: string, net: Network, at: nat): Exchange<Resolution> {
    var head := Retry(w, Head(repo, tag), net, at);
    if head.result.None? then Exchange(Unresolved(NetworkError), head.after, head.used)
    else if ReadAnswer(head.result.value).Some? then
      Exchange(ReadAnswer(head.result.value).value, head.after, head.used)
    else if head.result.value.status >= 500 then
      Exchange(Unresolved(HeadFailed(head.result.value.status)), head.after, head.used)
    else
      var get := Retry(head.after, Get(repo, tag), net, head.used);
      if get.result.None? then Exchange(Unresolved(NetworkError), get.after, get.used)
      else if ReadAnswer(get.result.value).Some? then
        Exchange(ReadAnswer(get.result.value).value, get.after, get.used)
      else Exchange(Unresolved(NoDigest(get.result.value.status)), get.after, get.used)
  }

  // delete_manifest: None when the manifest is gone
  function DeleteManifest(w: Registry, repo: Repo, digest: Digest, net: Network, at: nat): Exchange<Option<Failure>> {
    var r := Retry(w, Delete(repo, digest), net, at);
    Exchange(if r.result.None? then Some(NetworkError)
             else if r.result.value.status in {200, 202, 404} then None
             else Some(DeleteFailed(r.result.value.status)), r.after, r.used)
  }

  datatype CleanupResult = CleanupResult(failure: Option<Failure>, digest: Option<Digest>, missing: bool) {
    predicate Ok() {
      failure.None?
    }
  }

  // cleanup_tag
  function CleanupTag(w: Registry, registryTag: string, net: Network, at: nat): Exchange<CleanupResult> {
    match RegistryTag.ParseTag(registryTag)
    case Invalid => Exchange(CleanupResult(Some(BadTag), None, false), w, at)
    case Artefact(host, name, tag) =>
      var repo := Repo(host, name);
      var resolved := ResolveManifestDigest(w, repo, tag, net, at);
      match resolved.result
      case Unresolved(failure) => Exchange(CleanupResult(Some(failure), None, false), resolved.after, resolved.used)
      case Missing => Exchange(CleanupResult(None, None, true), resolved.after, resolved.used)
      case Resolved(digest) =>
        var deleted := DeleteManifest(resolved.after, repo, digest, net, resolved.used);
        Exchange(CleanupResult(deleted.result, Some(digest), false), deleted.after, deleted.used)
  }

  // ---- What cleanup achieves ---------------------------------------------------------

  // Resolving changes nothing, and what it claims is so.
  lemma ResolutionIsTrue(w: Registry, repo: Repo, tag: string, net: Network, at: nat)
    ensures var r := ResolveManifestDigest(w, repo, tag, net, at);
            && r.after == w
            && (r.result.Missing? ==> Lookup(w, repo, tag).None?)
            && (r.result.Resolved? ==> Lookup(w, repo, tag) == Some(r.result.digest))
  {
    var head := Retry(w, Head(repo, tag), net, at);
    RetrySettles(w, Head(repo, tag), net, at, 0, None, w);
    RetrySettles(w, Get(repo, tag), net, head.used, 0, None, w);
  }

  // If cleanup_tag returns ok the tag no longer resolves, whatever happened to the replies on the way.
  lemma CleanupOkMeansGone(w: Registry, registryTag: string, net: Network, at: nat)
    requires CleanupTag(w, registryTag, net, at).result.Ok()
    ensures var p := RegistryTag.ParseTag(registryTag);
            p.Artefact? && Lookup(CleanupTag(w, registryTag, net, at).after, Repo(p.host, p.repo), p.tag).None?
  {
    var p := RegistryTag.ParseTag(registryTag);
    var repo := Repo(p.host, p.repo);
    ResolutionIsTrue(w, repo, p.tag, net, at);
    var resolved := ResolveManifestDigest(w, repo, p.tag, net, at);
    if resolved.result.Resolved? {
      RetrySettles(w, Delete(repo, resolved.result.digest), net, resolved.used, 0, None, w);
    }
  }

  // Whatever happens, an artefact disappears only if it is the resolved digest in the tag's own repository.
  lemma OnlyResolvedDigestRemoved(w: Registry, registryTag: string, net: Network, at: nat, repo: Repo, tag: string)
    ensures var r := CleanupTag(w, registryTag, net, at);
            Lookup(r.after, repo, tag) != Lookup(w, repo, tag) ==>
              var p := RegistryTag.ParseTag(registryTag);
              && p.Artefact? && repo == Repo(p.host, p.repo)
              && Lookup(r.after, repo, tag).None?
              && r.result.digest.Some?
              && r.result.digest == Lookup(w, repo, tag) == Lookup(w, repo, p.tag)
  {
    var p := RegistryTag.ParseTag(registryTag);
    if p.Artefact? {
      var own := Repo(p.host, p.repo);
      ResolutionIsTrue(w, own, p.tag, net, at);
      var resolved := ResolveManifestDigest(w, own, p.tag, net, at);
      if resolved.result.Resolved? {
        RetrySettles(w, Delete(own, resolved.result.digest), net, resolved.used, 0, None, w);
      }
    }
  }

  // ---- By the fates alone ------------------------------------------------------------

  // Where a request stops: after its first final attempt, or after all three.
  function EndOf(net: Network, at: nat): nat {
    if IsFinal(net(at)) then at + 1 else if IsFinal(net(at + 1)) then at + 2 else at + ATTEMPTS
  }

  // The attempt whose reply is taken when there is a final one.
  function LastFate(net: Network, at: nat): Fate {
    net(EndOf(net, at) - 1)
  }

  predicate Shows(fate: Fate) {
    fate.Served? && fate.showsDigest
  }

  lemma RetryStops(w: Registry, req: Request, net: Network, at: nat)
    ensures Retry(w, req, net, at).used == EndOf(net, at)
  {
    RetryMeaning(w, req, net, at);
  }

  // What a read returns.
  lemma ReadByFate(w: Registry, req: Request, net: Network, at: nat)
    requires !req.Delete?
    ensures var r := Retry(w, req, net, at);
            && r.after == w && r.used == EndOf(net, at)
            && if IsFinal(LastFate(net, at)) then r.result == Reply(w, req, LastFate(net, at))
               else (if r.result.Some? then Some(r.result.value.status) else None) == LastError(net, at, at + ATTEMPTS)
                    && (r.result.Some? ==> r.result.value.status >= 500)
  {
    RetryStops(w, req, net, at);
    RetryMeaning(w, req, net, at);
    RetrySettles(w, req, net, at, 0, None, w);
    LastErrorIsServerError(net, at, at + ATTEMPTS);
    ReadReplyIsLast(w, req, net, at, 0, None);
  }

  lemma {:induction false} ReadReplyIsLast(w: Registry, req: Request, net: Network, at: nat, attempt: nat,
                                           last: Option<Response>)
    requires attempt < ATTEMPTS && !req.Delete?
    ensures var r := RetryFrom(w, req, net, at, attempt, last);
            at < r.used && (IsFinal(net(r.used - 1)) ==> r.result == Reply(w, req, net(r.used - 1)))
    decreases ATTEMPTS - attempt
  {
    var reply := Reply(w, req, net(at));
    if attempt < ATTEMPTS - 1 && !(reply.Some? && reply.value.status < 500) {
      ReadReplyIsLast(w, req, net, at + 1, attempt + 1, if reply.Some? then reply else last);
    }
  }

  // The last HEAD attempt shows the digest, or is final without it and the last GET attempt shows it.
  predicate DigestShown(net: Network, at: nat) {
    IsFinal(LastFate(net, at)) && (Shows(LastFate(net, at)) || Shows(LastFate(net, EndOf(net, at))))
  }

  // HEAD is served, or refused and then GET is served.
  predicate AbsenceShown(net: Network, at: nat) {
    var head := LastFate(net, at);
    head.Served? || (head.Refused? && LastFate(net, EndOf(net, at)).Served?)
  }

  // Where the attempts to delete start.
  function DeleteFrom(net: Network, at: nat): nat {
    if Shows(LastFate(net, at)) then EndOf(net, at) else EndOf(net, EndOf(net, at))
  }

  // A present tag is resolved exactly when HEAD or the GET after it shows the digest, an absent one found missing
  // exactly when HEAD or the GET after it is served; a HEAD refused with whatever status below 500 leads to a GET.
  lemma ResolvedExactly(w: Registry, repo: Repo, tag: string, net: Network, at: nat)
    ensures var r, digest := ResolveManifestDigest(w, repo, tag, net, at), Lookup(w, repo, tag);
            && (r.result.Resolved? <==> digest.Some? && DigestShown(net, at))
            && (r.result.Missing? <==> digest.None? && AbsenceShown(net, at))
            && (r.result.Resolved? ==> r.used == DeleteFrom(net, at) && Some(r.result.digest) == digest)
            && r.after == w
  {
    ReadByFate(w, Head(repo, tag), net, at);
    ReadByFate(w, Get(repo, tag), net, EndOf(net, at));
    ResolutionIsTrue(w, repo, tag, net, at);
  }

  // When HEAD is never answered below 500, the failure is its last 5xx reply, or the network's.
  lemma HeadFailure(w: Registry, repo: Repo, tag: string, net: Network, at: nat)
    requires !IsFinal(LastFate(net, at))
    ensures var error := LastError(net, at, at + ATTEMPTS);
            ResolveManifestDigest(w, repo, tag, net, at).result
            == Unresolved(if error.None? then NetworkError else HeadFailed(error.value))
  {
    ReadByFate(w, Head(repo, tag), net, at);
  }

  // When HEAD settles nothing, the failure is the status of the GET after it, or the network's.
  lemma GetFailure(w: Registry, repo: Repo, tag: string, net: Network, at: nat)
    requires IsFinal(LastFate(net, at)) && ResolveManifestDigest(w, repo, tag, net, at).result.Unresolved?
    ensures var get := EndOf(net, at);
            var last, error := LastFate(net, get), LastError(net, get, get + ATTEMPTS);
            ResolveManifestDigest(w, repo, tag, net, at).result.failure
            == if last.Refused? then NoDigest(last.code as int)
               else if last.Served? then NoDigest(last.success as int)
               else if error.None? then NetworkError else NoDigest(error.value)
  {
    ReadByFate(w, Head(repo, tag), net, at);
    ReadByFate(w, Get(repo, tag), net, EndOf(net, at));
  }

  // Every attempt gets through and is answered.
  ghost predicate Responsive(net: Network, at: nat) {
    forall k :: k >= at ==> net(k).Served? && net(k).success in {200, 202}
  }

  // A second run after a successful one never deletes anything; a responsive registry reports the tag missing.
  lemma SecondRunFindsNothing(w: Registry, registryTag: string, net: Network, at: nat, net2: Network, at2: nat)
    requires CleanupTag(w, registryTag, net, at).result.Ok()
    ensures var first := CleanupTag(w, registryTag, net, at);
            var second := CleanupTag(first.after, registryTag, net2, at2);
            && second.after == first.after && second.result.digest.None?
            && (second.result.Ok() <==> second.result.missing)
            && (Responsive(net2, at2) ==> second.result.missing)
  {
    CleanupOkMeansGone(w, registryTag, net, at);
    var p := RegistryTag.ParseTag(registryTag);
    ResolutionIsTrue(CleanupTag(w, registryTag, net, at).after, Repo(p.host, p.repo), p.tag, net2, at2);
  }

  // Against a responsive registry cleanup works exactly when the tag is well formed and either is
  // missing already or has its digest shown by HEAD or by GET.
  lemma ResponsiveExactly(w: Registry, registryTag: string, net: Network, at: nat)
    requires Responsive(net, at)
    ensures var p := RegistryTag.ParseTag(registryTag);
            CleanupTag(w, registryTag, net, at).result.Ok() <==>
              p.Artefact? && (Lookup(w, Repo(p.host, p.repo), p.tag).None? || net(at).showsDigest || net(at + 1).showsDigest)
  {
    var p := RegistryTag.ParseTag(registryTag);
    if p.Artefact? {
      ResolveResponsive(w, Repo(p.host, p.repo), p.tag, net, at);
      var resolved := ResolveManifestDigest(w, Repo(p.host, p.repo), p.tag, net, at);
      if resolved.result.Resolved? {
        ServedAtOnce(resolved.after, Delete(Repo(p.host, p.repo), resolved.result.digest), net, resolved.used);
      }
    }
  }

  lemma ServedAtOnce(w: Registry, req: Request, net: Network, at: nat)
    requires net(at).Served?
    ensures Retry(w, req, net, at) == Exchange(Reply(w, req, net(at)), Effect(w, req, net(at)), at + 1)
  {}

  lemma ResolveResponsive(w: Registry, repo: Repo, tag: string, net: Network, at: nat)
    requires Responsive(net, at)
    ensures var r := ResolveManifestDigest(w, repo, tag, net, at);
            && r.after == w && at < r.used
            && r.result == (if Lookup(w, repo, tag).None? then Missing
                            else if net(at).showsDigest || net(at + 1).showsDigest then Resolved(Lookup(w, repo, tag).value)
                            else Unresolved(NoDigest(net(at + 1).success as int)))
  {
    ServedAtOnce(w, Head(repo, tag), net, at);
    ServedAtOnce(w, Get(repo, tag), net, at + 1);
  }

  // The opposite of CleanupOkMeansGone fails, for one when every reply to the DELETE is lost.
  lemma GoneWithoutOk(w: Registry, registryTag: string)
    requires var p := RegistryTag.ParseTag(registryTag);
             p.Artefact? && Lookup(w, Repo(p.host, p.repo), p.tag).Some?
    ensures var net: Network := k => if k == 0 then Served(200, true) else Dropped(true);
            var p := RegistryTag.ParseTag(registryTag);
            var r := CleanupTag(w, registryTag, net, 0);
            !r.result.Ok() && Lookup(r.after, Repo(p.host, p.repo), p.tag).None?
  {
    var net: Network := k => if k == 0 then Served(200, true) else Dropped(true);
    var p := RegistryTag.ParseTag(registryTag);
    var delete := Delete(Repo(p.host, p.repo), Lookup(w, Repo(p.host, p.repo), p.tag).value);
    assert Retry(w, Head(Repo(p.host, p.repo), p.tag), net, 0).used == 1;
    var once := Remove(w, delete.repo, delete.digest);
    RemoveTwice(w, delete.repo, delete.digest);
    assert RetryFrom(once, delete, net, 3, 2, None) == Exchange(None, once, 4);
    assert RetryFrom(once, delete, net, 2, 1, None) == Exchange(None, once, 4);
    assert Retry(w, delete, net, 1) == Exchange(None, once, 4);
  }

  // ---- Gone, and not reported --------------------------------------------------------

  predicate Applies(fate: Fate) {
    fate.Served? || (!fate.Refused? && fate.applied)
  }

  predicate AppliedIn(net: Network, start: nat, end: nat) {
    exists k | start <= k < end :: Applies(net(k))
  }

  // The registry once some of these attempts to delete may have taken effect.
  function AfterAttempts(w: Registry, req: Request, net: Network, start: nat, end: nat): Registry
    requires req.Delete?
  {
    if AppliedIn(net, start, end) then Remove(w, req.repo, req.digest) else w
  }

  // One attempt, then the rest.
  lemma AttemptsCompose(w: Registry, req: Request, net: Network, at: nat, end: nat)
    requires req.Delete? && at < end
    ensures AfterAttempts(Effect(w, req, net(at)), req, net, at + 1, end) == AfterAttempts(w, req, net, at, end)
  {
    RemoveTwice(w, req.repo, req.digest);
    AppliedFrom(net, at, end);
  }

  // A delete takes effect exactly when one of its attempts does.
  lemma {:induction false} DeleteFollowsFates(w: Registry, req: Request, net: Network, at: nat, attempt: nat,
                                              last: Option<Response>)
    requires attempt < ATTEMPTS && req.Delete?
    ensures var r := RetryFrom(w, req, net, at, attempt, last);
            at < r.used && r.after == AfterAttempts(w, req, net, at, r.used)
    decreases ATTEMPTS - attempt
  {
    var reply, after := Reply(w, req, net(at)), Effect(w, req, net(at));
    if attempt == ATTEMPTS - 1 || (reply.Some? && reply.value.status < 500) {
      AttemptsCompose(w, req, net, at, at + 1);
    } else {
      DeleteFollowsFates(after, req, net, at + 1, attempt + 1, if reply.Some? then reply else last);
      AttemptsCompose(w, req, net, at, RetryFrom(w, req, net, at, attempt, last).used);
    }
  }

  // A final reply is the last attempt's.
  lemma {:induction false} LastAttemptAnswers(w: Registry, req: Request, net: Network, at: nat, attempt: nat,
                                              last: Option<Response>)
    requires attempt < ATTEMPTS && req.Delete?
    ensures var r := RetryFrom(w, req, net, at, attempt, last);
            && at < r.used
            && (IsFinal(net(r.used - 1)) ==>
                  r.result == Reply(AfterAttempts(w, req, net, at, r.used - 1), req, net(r.used - 1)))
    decreases ATTEMPTS - attempt
  {
    var reply, after := Reply(w, req, net(at)), Effect(w, req, net(at));
    if attempt < ATTEMPTS - 1 && !(reply.Some? && reply.value.status < 500) {
      LastAttemptAnswers(after, req, net, at + 1, attempt + 1, if reply.Some? then reply else last);
      AttemptsCompose(w, req, net, at, RetryFrom(w, req, net, at, attempt, last).used - 1);
    }
  }

  lemma AppliedFrom(net: Network, start: nat, end: nat)
    requires start < end
    ensures AppliedIn(net, start, end) <==> Applies(net(start)) || AppliedIn(net, start + 1, end)
  {}

  // By the fates of its attempts, a delete of a manifest that is there gets an answer that counts as success.
  predicate IsReported(net: Network, start: nat, end: nat)
    requires start < end
  {
    net(end - 1).Served? && (net(end - 1).success in {200, 202} || AppliedIn(net, start, end - 1))
  }

  lemma DeleteReportsExactly(w: Registry, repo: Repo, digest: Digest, net: Network, at: nat)
    requires Holds(w, repo, digest)
    ensures var r := DeleteManifest(w, repo, digest, net, at);
            at < r.used && (r.result.None? <==> IsReported(net, at, r.used))
  {
    LastAttemptAnswers(w, Delete(repo, digest), net, at, 0, None);
    RetryMeaning(w, Delete(repo, digest), net, at);
    LastErrorIsServerError(net, at, at + ATTEMPTS);
  }

  lemma {:induction false} LastErrorIsServerError(net: Network, at: nat, end: nat)
    requires at <= end
    ensures LastError(net, at, end).Some? ==> LastError(net, at, end).value >= 500
    decreases end - at
  {
    if at < end {
      LastErrorIsServerError(net, at + 1, end);
    }
  }

  lemma DeleteStops(w: Registry, repo: Repo, digest: Digest, net: Network, at: nat)
    ensures var r := DeleteManifest(w, repo, digest, net, at);
            r.used == EndOf(net, at) && r.after == AfterAttempts(w, Delete(repo, digest), net, at, EndOf(net, at))
  {
    RetryStops(w, Delete(repo, digest), net, at);
    DeleteFollowsFates(w, Delete(repo, digest), net, at, 0, None);
  }

  // A delete that is not reported fails with the status that was answered last, or with the network's error.
  lemma DeleteFailureExactly(w: Registry, repo: Repo, digest: Digest, net: Network, at: nat)
    requires Holds(w, repo, digest) && !IsReported(net, at, EndOf(net, at))
    ensures var last, error := LastFate(net, at), LastError(net, at, at + ATTEMPTS);
            DeleteManifest(w, repo, digest, net, at).result
            == Some(if last.Refused? then DeleteFailed(last.code as int)
                    else if last.Served? then DeleteFailed(last.success as int)
                    else if error.None? then NetworkError else DeleteFailed(error.value))
  {
    DeleteStops(w, repo, digest, net, at);
    DeleteReportsExactly(w, repo, digest, net, at);
    LastAttemptAnswers(w, Delete(repo, digest), net, at, 0, None);
    RetryMeaning(w, Delete(repo, digest), net, at);
  }

  // Over every network: cleanup succeeds exactly when the tag is well formed and it is absent and found so, or
  // present, its digest is shown, and the delete is reported.
  lemma OkExactly(w: Registry, registryTag: string, net: Network, at: nat)
    ensures var p, r := RegistryTag.ParseTag(registryTag), CleanupTag(w, registryTag, net, at).result;
            var digest := if p.Artefact? then Lookup(w, Repo(p.host, p.repo), p.tag) else None;
            var start := DeleteFrom(net, at);
            && (r.Ok() <==> p.Artefact? && if digest.None? then AbsenceShown(net, at)
                                           else DigestShown(net, at) && IsReported(net, start, EndOf(net, start)))
            && (r.missing <==> p.Artefact? && digest.None? && AbsenceShown(net, at))
            && r.digest == (if digest.Some? && DigestShown(net, at) then digest else None)
  {
    var p := RegistryTag.ParseTag(registryTag);
    if p.Artefact? {
      var repo := Repo(p.host, p.repo);
      ResolvedExactly(w, repo, p.tag, net, at);
      var resolved := ResolveManifestDigest(w, repo, p.tag, net, at);
      if resolved.result.Resolved? {
        DeleteStops(w, repo, resolved.result.digest, net, resolved.used);
        DeleteReportsExactly(w, repo, resolved.result.digest, net, resolved.used);
      }
    }
  }

  // And the registry has lost that digest exactly when one attempt to delete it took effect; nothing else changes.
  lemma RegistryAfterExactly(w: Registry, registryTag: string, net: Network, at: nat)
    ensures var p, start := RegistryTag.ParseTag(registryTag), DeleteFrom(net, at);
            CleanupTag(w, registryTag, net, at).after
            == if p.Artefact? && Lookup(w, Repo(p.host, p.repo), p.tag).Some? && DigestShown(net, at)
                  && AppliedIn(net, start, EndOf(net, start))
               then Remove(w, Repo(p.host, p.repo), Lookup(w, Repo(p.host, p.repo), p.tag).value)
               else w
  {
    var p := RegistryTag.ParseTag(registryTag);
    if p.Artefact? {
      var repo := Repo(p.host, p.repo);
      ResolvedExactly(w, repo, p.tag, net, at);
      var resolved := ResolveManifestDigest(w, repo, p.tag, net, at);
      if resolved.result.Resolved? {
        DeleteStops(w, repo, resolved.result.digest, net, resolved.used);
      }
    }
  }

  // The artefact is gone while cleanup reports an error exactly when its digest was shown, some attempt to
  // delete it took effect, and the last one was not answered by 200 or 202, nor by 404 for an earlier one.
  lemma GoneUnreportedExactly(w: Registry, registryTag: string, net: Network, at: nat, host: string, name: string,
                              tag: string)
    requires RegistryTag.ParseTag(registryTag) == RegistryTag.Artefact(host, name, tag)
    ensures var repo, r, start := Repo(host, name), CleanupTag(w, registryTag, net, at), DeleteFrom(net, at);
            (Lookup(w, repo, tag).Some? && Lookup(r.after, repo, tag).None? && !r.result.Ok())
            <==> (Lookup(w, repo, tag).Some? && DigestShown(net, at)
                  && AppliedIn(net, start, EndOf(net, start)) && !IsReported(net, start, EndOf(net, start)))
  {
    OkExactly(w, registryTag, net, at);
    RegistryAfterExactly(w, registryTag, net, at);
  }
}
