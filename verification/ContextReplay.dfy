/**
 The context's counter while a workflow is replayed: the positions that its methods reserve are the
 positions of `Replay`.
 */
module ContextReplay {
  import opened Values
  import opened WorkflowContext
  import opened Replay

  /** The context of a running workflow between two operations. */
  ghost predicate Running(ctx: Context, id: string)
    reads ctx
  {
    ctx.workflowId == id && id != "" && 0 <= ctx.functionId && ctx.assignedId == ""
  }

  /** `DBOS.patch`: the position is consumed only if the patch applies. */
  method AskPatch(ctx: Context, rows: Rows, patch: string) returns (patched: Option<bool>)
    requires 0 <= ctx.functionId
    modifies ctx`functionId
    ensures patched.None? <==> old(ctx.functionId) + 1 !in rows
    ensures patched.Some? ==> patched.value == IsMarker(rows, old(ctx.functionId) + 1, patch)
    ensures ctx.functionId == old(ctx.functionId) + if patched == Some(true) then 1 else 0
  {
    var position := ctx.functionId + 1;
    if position !in rows { return None; }
    if rows[position].name == MarkerName(patch) {
      ctx.functionId := ctx.functionId + 1;
      return Some(true);
    }
    patched := Some(false);
  }

  /** `DBOS.deprecate_patch`: the position is consumed only if the marker is there. */
  method AskDeprecated(ctx: Context, rows: Rows, patch: string)
    requires 0 <= ctx.functionId
    modifies ctx`functionId
    ensures ctx.functionId == old(ctx.functionId) + if IsMarker(rows, old(ctx.functionId) + 1, patch) then 1 else 0
  {
    if ctx.functionId + 1 in rows && rows[ctx.functionId + 1].name == MarkerName(patch) {
      ctx.functionId := ctx.functionId + 1;
    }
  }

  /** Looks up one operation; the counter ends at the position that `Observe` gives. */
  method LookUp(ctx: Context, id: string, rows: Rows, a: Action) returns (o: Option<Observation>)
    requires Running(ctx, id)
    modifies ctx
    ensures Running(ctx, id)
    ensures o.Some? <==> Observe(id, rows, a, old(ctx.functionId)).Some?
    ensures o.Some? ==> Observe(id, rows, a, old(ctx.functionId)) == Some((o.value, ctx.functionId))
  {
    match a {
      case RunStep(name) =>
        var step := ctx.SnapshotStep(false);
        var position := step.functionId;
        if position in rows && rows[position].name == name && rows[position].content.Step? {
          return Some(Saw(rows[position].content));
        }
        o := None;
      case StartChild(name, chosen) =>
        ctx.assignedId := chosen;
        var child := ctx.StartWorkflowChild("");
        var position := child.parentFunctionId;
        if position in rows && rows[position].name == name && rows[position].content == Child(child.assignedId) {
          return Some(Saw(rows[position].content));
        }
        o := None;
      case Patch(patch) =>
        var patched := AskPatch(ctx, rows, patch);
        o := if patched.Some? then Some(Answer(patched.value)) else None;
      case Deprecate(patch) =>
        AskDeprecated(ctx, rows, patch);
        o := Some(Answer(true));
      case Finish(_) =>
        o := None;
    }
  }

  /**
   Replays a workflow from the beginning of its table: the history read is the one that the table admits,
   every position reserved on the way is the one at which its operation was recorded, and the loop stops at
   the first operation that is not in the table.
   */
  method ReplayTable(p: Program, id: string, rows: Rows, limit: nat) returns (h: History, ctx: Context)
    requires id != ""
    ensures fresh(ctx) && Running(ctx, id) && |h| <= limit
    ensures Follow(p, id, rows, h).Some?
    ensures |h| < limit ==> Observe(id, rows, p(h), Follow(p, id, rows, h).value).None?
    ensures |h| == limit ==> Follow(p, id, rows, h) == Some(ctx.functionId)
  {
    ctx := new Context(id, 0, "", "", 0);
    h := [];
    while |h| < limit
      invariant fresh(ctx) && Running(ctx, id) && |h| <= limit
      invariant Follow(p, id, rows, h) == Some(ctx.functionId)
      decreases limit - |h|
    {
      var o := LookUp(ctx, id, rows, p(h));
      if o.None? { return; }
      FollowStep(p, id, rows, h, o.value);
      h := h + [o.value];
    }
  }
}
