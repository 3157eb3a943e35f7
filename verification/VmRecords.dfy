/**
  The VM records that the handlers update in place. Every method does what its route or
  poller does, field by field, and is proved to leave exactly the row that the handler
  function of VmModel gives, and exactly the log that one set_vm_status to the new status
  gives; so the theorems about rows and logs are theorems about these methods.
 */
module VmRecords {
  import opened Wrappers
  import opened VmModel
  import opened StatusDetail
  import opened RegistryCleanup
  import opened UsageEvents
  import RegistryTag
  import Text

  // The text that ends up in vm.cleanup_last_error.
  function Describe(failure: Failure): string {
    match failure
    case BadTag => "invalid registry tag"
    case NetworkError => "request error"
    case HeadFailed(status) => "HEAD manifest failed with " + StatusText(status)
    case NoDigest(status) => "GET manifest did not return digest (status " + StatusText(status) + ")"
    case DeleteFailed(status) => "DELETE manifest failed with " + StatusText(status)
  }

  function StatusText(status: int): string {
    if status < 0 then "-" + Text.Decimal(-status) else Text.Decimal(status)
  }

  // The result of cleanup_tag as the handlers see it.
  function AnswerOf(result: CleanupResult): CleanupAnswer {
    CleanupAnswer(result.Ok(), result.digest, if result.Ok() then None else Some(Describe(result.failure.value)))
  }

  // A registry as cleanup finds it, and the fates of its requests.
  datatype Link = Link(registry: Registry, net: Network, at: nat)

  // What cleaning a tag up over this link brings.
  function CleanupOver(link: Link, tag: Tag): Exchange<CleanupResult> {
    if Text.Strip(tag) == "" then Exchange(CleanupResult(None, None, true), link.registry, link.at)
    else CleanupTag(link.registry, Text.Strip(tag), link.net, link.at)
  }

  // What the handlers are told is so: a blank tag is done with nothing sent; otherwise ok means that the tag no longer
  // resolves, and anything else comes with an error.
  lemma AnswerIsTrue(link: Link, tag: Tag)
    ensures var x, answer, p := CleanupOver(link, tag), AnswerOf(CleanupOver(link, tag).result),
                                RegistryTag.ParseTag(Text.Strip(tag));
            && (answer.ok <==> answer.error.None?)
            && (Text.Strip(tag) == "" ==> answer == CleanupAnswer(true, None, None) && x.after == link.registry)
            && (Text.Strip(tag) != "" ==>
                  (answer.ok <==> CleanupTag(link.registry, Text.Strip(tag), link.net, link.at).result.Ok())
                  && (answer.ok ==>
                        p.Artefact? && RegistryCleanup.Lookup(x.after, Repo(p.host, p.repo), p.tag).None?))
  {
    if Text.Strip(tag) != "" && AnswerOf(CleanupOver(link, tag).result).ok {
      CleanupOkMeansGone(link.registry, Text.Strip(tag), link.net, link.at);
    }
  }

  class VmRecord {
    const createdAt: int
    var status: Status
    var nodeId: Option<NodeId>
    var statusDetail: Option<string>
    var registryTag: Tag
    var baseImage: Tag
    var lastSavedAt: Option<int>
    var lastStartedAt: Option<int>
    var cleanupStatus: Option<CleanupStatus>
    var cleanupLastError: Option<string>
    var cleanupLastRunAt: Option<int>
    var cleanupTargetDigest: Option<string>
    var events: seq<Event>

    ghost function Row(): VmRow
      reads this
    {
      VmRow(status, nodeId, statusDetail, registryTag, baseImage, lastSavedAt, lastStartedAt,
            VmModel.Cleanup(cleanupStatus, cleanupLastError, cleanupLastRunAt, cleanupTargetDigest),
            Targets(events))
    }

    ghost function Log(): Track
      reads this
    {
      Track(status, events)
    }

    // The row create_vm inserts, with its baseline event.
    constructor (node: NodeId, tag: Tag, image: Tag, now: int)
      ensures Row() == NewRow(node, tag, image) && Log() == Created(now) && createdAt == now
    {
      createdAt := now;
      status, nodeId, statusDetail := Creating, Some(node), None;
      registryTag, baseImage := tag, image;
      lastSavedAt, lastStartedAt := None, None;
      cleanupStatus, cleanupLastError, cleanupLastRunAt, cleanupTargetDigest := None, None, None, None;
      events := [];
      new;
      EnsureVmStatusBaseline();
      assert events == [Event(0, None, Creating, now)];
    }

    // ---- app/usage_events.py ------------------------------------------------

    method RecordTransition(fromStatus: Option<Status>, toStatus: Status, changedAt: int)
      modifies this`events
      ensures events == Record(old(events), fromStatus, toStatus, changedAt)
    {
      var latest := Latest(events);
      if latest.Some? && latest.value.toStatus == toStatus {
        return;
      }
      events := events + [Event(|events|, fromStatus, toStatus, changedAt)];
    }

    method SetVmStatus(toStatus: Status, now: int)
      modifies this`status, this`events
      ensures Log() == SetStatus(old(Log()), toStatus, now)
      ensures Row() == WithStatus(old(Row()), toStatus)
    {
      SetStatusTargets(Log(), toStatus, now);
      var fromStatus := status;
      status := toStatus;
      if fromStatus != toStatus {
        RecordTransition(Some(fromStatus), toStatus, now);
      }
    }

    method EnsureVmStatusBaseline()
      modifies this`events
      ensures Log() == EnsureBaseline(old(Log()), createdAt)
    {
      if events != [] {
        return;
      }
      RecordTransition(None, status, createdAt);
    }

    // ---- app/registry_cleanup.py ----------------------------------------------

    method CleanupVmRegistryTag(link: Link, now: int) returns (result: CleanupResult, after: Registry)
      modifies this`cleanupStatus, this`cleanupLastError, this`cleanupLastRunAt, this`cleanupTargetDigest
      ensures result == CleanupOver(link, registryTag).result && after == CleanupOver(link, registryTag).after
      ensures Row() == CleanupRow(old(Row()), AnswerOf(result), now)
    {
      cleanupLastRunAt := Some(now);
      cleanupTargetDigest := None;
      var tag := Text.Strip(registryTag);
      if tag == "" {
        cleanupStatus := Some(Done);
        cleanupLastError := None;
        return CleanupResult(None, None, true), link.registry;
      }
      var cleaned := CleanupTag(link.registry, tag, link.net, link.at);
      result, after := cleaned.result, cleaned.after;
      cleanupTargetDigest := result.digest;
      if result.Ok() {
        cleanupStatus := Some(Done);
        cleanupLastError := None;
      } else {
        cleanupStatus := Some(Warning);
        cleanupLastError := Some(Describe(result.failure.value));
      }
    }

    // ---- app/api/routes.py ------------------------------------------------------

    method MarkArchived(detail: Option<string>, now: int)
      modifies this
      ensures Row() == Archive(old(Row()), detail, now)
      ensures Log() == SetStatus(old(Log()), Archived, now)
    {
      SetVmStatus(Archived, now);
      nodeId := None;
      lastSavedAt := Some(now);
      statusDetail := detail;
    }

    method FinishPush(nodes: Nodes, gold: map<string, Tag>, restoreOk: bool, now: int) returns (effect: Effect)
      requires status == Pushing
      modifies this
      ensures Outcome(Row(), effect) == PushDone(old(Row()), nodes, gold, restoreOk, now)
      ensures !effect.CleanTag? && (status == Pushing <==> Row() == old(Row()))
      ensures Log() == SetStatus(old(Log()), status, now)
    {
      effect := Quiet;
      var goldName := ParseGoldName(statusDetail);
      var target := ParseMigrationTarget(statusDetail);
      if goldName.Some? {
        MarkArchived(None, now);
        if goldName.value in gold && gold[goldName.value] != "" {
          registryTag := gold[goldName.value];
        }
      } else if target.Some? && target.value != 0 {
        if !IsActive(nodes, target.value) {
          MarkArchived(Some(TARGET_GONE), now);
        } else {
          if !restoreOk {
            return;                      // TartAPIError out of restore_vm
          }
          effect := BeginRestore(target.value, Text.Strip(registryTag));
          SetVmStatus(Pulling, now);
          nodeId := Some(target.value);
          statusDetail := None;
        }
      } else {
        MarkArchived(None, now);
      }
    }

    method FinishPull(link: Link, now: int) returns (effect: Effect, after: Registry)
      modifies this
      ensures Outcome(Row(), effect)
              == RestoreDone(old(Row()), AnswerOf(CleanupOver(link, old(registryTag)).result), now)
      ensures Log() == SetStatus(old(Log()), Running, now)
      ensures after == if effect.CleanTag? then CleanupOver(link, old(registryTag)).after else link.registry
    {
      SetVmStatus(Running, now);
      lastStartedAt := Some(now);
      statusDetail := None;
      effect := if Text.Strip(registryTag) == "" then Quiet else CleanTag(registryTag);
      var result;
      result, after := CleanupVmRegistryTag(link, now);
    }

    method MarkFailed(detail: string, now: int)
      modifies this
      ensures Row() == WithStatus(old(Row()), Failed).(detail := Some(detail))
      ensures Log() == SetStatus(old(Log()), Failed, now)
    {
      SetVmStatus(Failed, now);
      statusDetail := Some(detail);
    }

    // _advance_async_op
    method AdvanceAsync(nodes: Nodes, gold: map<string, Tag>, reply: OpReply, restoreOk: bool, link: Link, now: int)
      returns (changed: bool, effect: Effect, after: Registry)
      modifies this
      ensures var answer := AnswerOf(CleanupOver(link, old(registryTag)).result);
              Outcome(Row(), effect) == AdvanceAsyncOp(old(Row()), nodes, gold, reply, restoreOk, answer, now)
      ensures Log() == SetStatus(old(Log()), status, now)
      ensures changed <==> Row() != old(Row())
      ensures after == if effect.CleanTag? then CleanupOver(link, old(registryTag)).after else link.registry
    {
      changed, effect, after := false, Quiet, link.registry;
      if status !in {Pushing, Pulling} || nodeId.None? || nodeId.value !in nodes {
        return;
      }
      match reply {
        case Idle =>
          MarkFailed(LOST_OP, now);
          changed := true;
        case Finished =>
          if status == Pushing {
            effect := FinishPush(nodes, gold, restoreOk, now);
            changed := status != Pushing;
          } else {
            effect, after := FinishPull(link, now);
            changed := true;
          }
        case Errored(text) =>
          MarkFailed(text, now);
          changed := true;
        case _ =>
      }
    }

    // _sync_vm_status_from_agent
    method SyncFromAgent(nodes: Nodes, listed: Option<Power>, now: int) returns (changed: bool)
      modifies this
      ensures Row() == SyncStatus(old(Row()), nodes, listed, now)
      ensures Log() == SetStatus(old(Log()), status, now)
      ensures changed <==> Row() != old(Row())
    {
      changed := false;
      if nodeId.None? || nodeId.value !in nodes || status !in {Creating, Running, Stopped, Failed} || listed.None? {
        return;
      }
      var normalized := StatusOf(listed.value);
      if status != normalized {
        SetVmStatus(normalized, now);
        statusDetail := None;
        if normalized == Running {
          lastStartedAt := Some(now);
        }
        changed := true;
      }
    }

    // ---- app/main/routes.py and app/admin/routes.py ------------------------------

    // create_vm after its first two commits: running at `startedAt`, then what the node reports at `now`
    method ConfirmCreated(started: bool, listed: Option<Power>, error: string, startedAt: int, now: int)
      modifies this
      ensures Row() == FinishCreate(old(Row()), started, listed, error, now)
      ensures Log() == if started then SetStatus(SetStatus(old(Log()), Running, startedAt), status, now)
                       else SetStatus(old(Log()), Failed, now)
    {
      if !started {
        MarkFailed(error, now);
        return;
      }
      SetVmStatus(Running, startedAt);
      if listed.Some? {
        SetVmStatus(StatusOf(listed.value), now);
      }
      if status == Running {
        lastStartedAt := Some(now);
      }
    }

    method Start(nodes: Nodes, listed: Option<Power>, ok: bool, now: int)
      modifies this
      ensures Row() == StartVm(old(Row()), nodes, listed, ok, now)
      ensures Log() == SetStatus(old(Log()), status, now)
    {
      if status !in {Stopped, Failed} || nodeId.None? || !IsActive(nodes, nodeId.value) {
        return;
      }
      if listed == Some(On) {
        SetVmStatus(Running, now);
        statusDetail := None;
        lastStartedAt := Some(now);
        return;
      }
      if ok {
        SetVmStatus(Running, now);
        lastStartedAt := Some(now);
        statusDetail := None;
      }
    }

    method Stop(nodes: Nodes, ok: bool, now: int)
      modifies this
      ensures Row() == StopVm(old(Row()), nodes, ok)
      ensures Log() == SetStatus(old(Log()), status, now)
    {
      if status != Running || nodeId.None? || nodeId.value !in nodes || !ok {
        return;
      }
      SetVmStatus(Stopped, now);
      statusDetail := None;
    }

    // save_vm, and archive_vm with `clearDetail`
    method Save(san: Tag -> Tag, nodes: Nodes, ok: bool, clearDetail: bool, now: int) returns (effect: Effect)
      modifies this
      ensures Outcome(Row(), effect) == SaveVm(san, old(Row()), nodes, ok, clearDetail)
      ensures Log() == SetStatus(old(Log()), status, now)
    {
      effect := Quiet;
      if status !in {Running, Stopped} || nodeId.None? || nodeId.value !in nodes || !ok {
        return;
      }
      var tag := san(registryTag);
      if tag != registryTag {
        registryTag := tag;
      }
      effect := BeginSave(nodeId.value, tag);
      SetVmStatus(Pushing, now);
      if clearDetail {
        statusDetail := None;
      }
    }

    method Migrate(san: Tag -> Tag, nodes: Nodes, target: nat, ok: bool, now: int) returns (effect: Effect)
      modifies this
      ensures Outcome(Row(), effect) == MigrateVm(san, old(Row()), nodes, target, ok)
      ensures Log() == SetStatus(old(Log()), status, now)
    {
      effect := Quiet;
      if status !in {Running, Stopped, Failed} || nodeId.None? || !IsActive(nodes, nodeId.value) {
        return;
      }
      if target == 0 || !IsActive(nodes, target) || nodeId == Some(target) || !ok {
        return;
      }
      var tag := san(registryTag);
      if tag != registryTag {
        registryTag := tag;
      }
      effect := BeginSave(nodeId.value, tag);
      SetVmStatus(Pushing, now);
      statusDetail := Some(MigrationMarker(target));
    }

    // resume_vm; `best` is what find_best_node answered
    method Resume(san: Tag -> Tag, nodes: Nodes, best: NodeId, ok: bool, clearDetail: bool, now: int)
      returns (effect: Effect)
      modifies this
      ensures Outcome(Row(), effect) == ResumeVm(san, old(Row()), nodes, best, ok, clearDetail)
      ensures Log() == SetStatus(old(Log()), status, now)
    {
      effect := Quiet;
      if status != Archived || !IsActive(nodes, best) || !ok {
        return;
      }
      var tag := san(registryTag);
      if tag != registryTag {
        registryTag := tag;
      }
      effect := BeginRestore(best, tag);
      SetVmStatus(Pulling, now);
      nodeId := Some(best);
      if clearDetail {
        statusDetail := None;
      }
    }

    // repull_vm with do_repull_vm
    method Repull(san: Tag -> Tag, nodes: Nodes, ok: bool, now: int) returns (effect: Effect)
      modifies this
      ensures Outcome(Row(), effect) == RepullVm(san, old(Row()), nodes, ok)
      ensures Log() == SetStatus(old(Log()), status, now)
    {
      effect := Quiet;
      if status != Failed || nodeId.None? || !IsActive(nodes, nodeId.value) {
        return;
      }
      var pullTag := if lastSavedAt.None? then baseImage else registryTag;
      if pullTag == "" || !ok {
        return;
      }
      effect := BeginRestore(nodeId.value, san(pullTag));
      SetVmStatus(Pulling, now);
      statusDetail := None;
    }

    method MakeGoldImage(nodes: Nodes, name: string, goldTag: Tag, ok: bool, now: int) returns (effect: Effect)
      modifies this
      ensures Outcome(Row(), effect) == MakeGold(old(Row()), nodes, name, goldTag, ok)
      ensures Log() == SetStatus(old(Log()), status, now)
    {
      effect := Quiet;
      if status !in {Running, Stopped} || nodeId.None? || nodeId.value !in nodes || name == "" || goldTag == "" || !ok {
        return;
      }
      effect := BeginSave(nodeId.value, goldTag);
      SetVmStatus(Pushing, now);
      statusDetail := Some(GoldMarker(name));
      registryTag := goldTag;
    }

    method RetryCleanup(link: Link, now: int) returns (effect: Effect, after: Registry)
      modifies this
      ensures Outcome(Row(), effect)
              == CleanupRetry(old(Row()), AnswerOf(CleanupOver(link, old(registryTag)).result), now)
      ensures Log() == old(Log())
      ensures after == if effect.CleanTag? then CleanupOver(link, old(registryTag)).after else link.registry
    {
      effect, after := Quiet, link.registry;
      if registryTag == "" || cleanupStatus == Some(Pending) {
        return;
      }
      cleanupStatus := Some(Pending);
      cleanupLastError := None;
      effect := if Text.Strip(registryTag) == "" then Quiet else CleanTag(registryTag);
      var result;
      result, after := CleanupVmRegistryTag(link, now);
    }

    // delete_vm up to the removal of the row
    method Delete(nodes: Nodes, ok: bool, error: string, link: Link, now: int) returns (removed: bool, after: Registry)
      modifies this
      ensures removed <==> (HasNode(old(Row()), nodes) ==> ok)
      ensures !removed ==> Row() == WithStatus(old(Row()), Failed).(detail := Some(error)) && after == link.registry
      ensures !removed ==> Log() == SetStatus(old(Log()), Failed, now)
      ensures removed ==> after == CleanupOver(link, old(registryTag)).after
    {
      after := link.registry;
      if nodeId.Some? && nodeId.value in nodes && !ok {
        MarkFailed(error, now);
        return false, after;
      }
      var result;
      result, after := CleanupVmRegistryTag(link, now);
      removed := true;
    }
  }
}
