/**
 The execution context: positions are reserved by counting, and child workflows are
 named after the position that starts them.
 */
module WorkflowContext {
  import opened Text

  /** The identifier that a workflow gives the child started at a position. */
  function ChildId(workflowId: string, position: nat): string {
    workflowId + "-" + Decimal(position)
  }

  /** The identifier reached from a root along a path of starting positions. */
  function PathId(root: string, path: seq<nat>): string {
    if path == [] then root else ChildId(PathId(root, path[..|path| - 1]), path[|path| - 1])
  }

  /** Reads the path of positions back from an identifier below a root. */
  function ParsePath(root: string, id: string): seq<int>
    decreases |id|
  {
    var i := LastDash(id);
    if |id| <= |root| || i < 0 then []
    else ParsePath(root, id[..i]) + [Value(id[i + 1..])]
  }

  lemma ParseChild(root: string, parent: string, position: nat)
    requires |root| <= |parent|
    ensures |root| < |ChildId(parent, position)|
    ensures ParsePath(root, ChildId(parent, position)) == ParsePath(root, parent) + [position]
  {
    LastDashSplits(parent, Decimal(position));
    DecimalRoundTrip(position);
  }

  lemma {:induction false} PathIdRoundTrip(root: string, path: seq<nat>)
    ensures |root| <= |PathId(root, path)| && (path != [] ==> |root| < |PathId(root, path)|)
    ensures ParsePath(root, PathId(root, path)) == path
  {
    if path != [] {
      var init, last := path[..|path| - 1], path[|path| - 1];
      PathIdRoundTrip(root, init);
      ParseChild(root, PathId(root, init), last);
      assert path == init + [last];
    }
  }

  /** Under one root, different call paths have different identifiers. */
  lemma PathIdInjective(root: string, p: seq<nat>, q: seq<nat>)
    requires PathId(root, p) == PathId(root, q)
    ensures p == q
  {
    PathIdRoundTrip(root, p);
    PathIdRoundTrip(root, q);
  }

  /**
   Two roots name the same workflow exactly when one of them lies below the other, on the way that the longer
   path has more.
   */
  lemma {:induction false} SameIdIff(a: string, p: seq<nat>, b: string, q: seq<nat>)
    requires |q| <= |p|
    ensures PathId(a, p) == PathId(b, q) <==> b == PathId(a, p[..|p| - |q|]) && p[|p| - |q|..] == q
  {
    if q == [] {
      assert p[..|p|] == p && p[|p|..] == [];
    } else {
      var p', q' := p[..|p| - 1], q[..|q| - 1];
      var m, n := p[|p| - 1], q[|q| - 1];
      SameIdIff(a, p', b, q');
      assert p'[..|p'| - |q'|] == p[..|p| - |q|];
      var rest, rest' := p[|p| - |q|..], p'[|p'| - |q'|..];
      assert rest == rest' + [m] && q == q' + [n];
      assert rest[..|q| - 1] == rest';
      SameChildIff(PathId(a, p'), m, PathId(b, q'), n);
    }
  }

  lemma SameChildIff(a: string, m: nat, b: string, n: nat)
    ensures ChildId(a, m) == ChildId(b, n) <==> a == b && m == n
  {
    if ChildId(a, m) == ChildId(b, n) {
      SplitUnique(a, Decimal(m), b, Decimal(n));
      DecimalRoundTrip(m);
      DecimalRoundTrip(n);
    }
  }

  class Context {
    var workflowId: string
    var functionId: int
    var assignedId: string
    var parentWorkflowId: string
    var parentFunctionId: int

    constructor (workflowId: string, functionId: int, assignedId: string, parentWorkflowId: string,
                 parentFunctionId: int)
      ensures this.workflowId == workflowId && this.functionId == functionId && this.assignedId == assignedId
      ensures this.parentWorkflowId == parentWorkflowId && this.parentFunctionId == parentFunctionId
    {
      this.workflowId, this.functionId, this.assignedId := workflowId, functionId, assignedId;
      this.parentWorkflowId, this.parentFunctionId := parentWorkflowId, parentFunctionId;
    }

    /** Reserves the next position for a step, and one more for its sleep when asked to. */
    method SnapshotStep(reserveSleepId: bool) returns (step: Context)
      modifies this`functionId
      ensures fresh(step) && step.workflowId == workflowId && step.functionId == old(functionId) + 1
      ensures step.parentWorkflowId == workflowId && step.parentFunctionId == old(functionId)
      ensures step.assignedId == ""
      ensures functionId == old(functionId) + (if reserveSleepId then 2 else 1)
    {
      step := new Context(workflowId, functionId + 1, "", workflowId, functionId);
      functionId := functionId + 1;
      if reserveSleepId {
        functionId := functionId + 1;
      }
    }

    /**
     Starts a workflow from this context.  Inside a workflow this reserves a position and
     names the child after it, unless the application assigned a name; the assigned name
     is used up.  Outside a workflow a generated identifier is the fallback.
     */
    method StartWorkflowChild(generated: string) returns (child: Context)
      requires workflowId != "" ==> functionId >= 0
      modifies this`functionId, this`assignedId
      ensures fresh(child) && assignedId == ""
      ensures functionId == old(functionId) + (if workflowId != "" then 1 else 0)
      ensures child.parentWorkflowId == workflowId && child.parentFunctionId == functionId
      ensures child.assignedId ==
              if old(assignedId) != "" then old(assignedId)
              else if workflowId != "" then ChildId(workflowId, functionId)
              else generated
    {
      if workflowId != "" {
        functionId := functionId + 1;
        if assignedId == "" {
          assignedId := workflowId + "-" + Decimal(functionId);
        }
      }
      child := new Context("", -1, assignedId, workflowId, functionId);
      assignedId := "";
      if child.assignedId == "" {
        child.assignedId := generated;
      }
    }
  }
}
