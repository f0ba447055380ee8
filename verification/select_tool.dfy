/** `Ros_ServiceSelectMotionTool_Trigger` (src/ServiceSelectMotionTool.c): the
    tool each control group's increments use. The controller's groups are
    represented by their tool numbers; remote mode is a parameter. */
module SelectTool {

  /** `MAX_VALID_TOOL_INDEX` */
  const MaxValidToolIndex: nat := 63

  /** `SelectionResultCodes` */
  datatype SelectionResult = SelectionOk | InvalidControllerState | InvalidControlGroup | InvalidSelectionIndex

  datatype Response = Response(success: bool, code: SelectionResult)

  /** The request passes the service's checks, with tool numbers limited by
      `toolLimit` (the first number refused). */
  predicate Admissible(remote: bool, tools: seq<nat>, group: nat, tool: nat, toolLimit: nat)
  {
    remote && group < |tools| && tool < toolLimit
  }

  /** The checks and update of the service, with the tool bound a parameter. */
  function SelectWith(remote: bool, tools: seq<nat>, group: nat, tool: nat, toolLimit: nat): (r: (Response, seq<nat>))
    ensures r.0.success <==> r.0.code == SelectionOk
    ensures r.0.success <==> Admissible(remote, tools, group, tool, toolLimit)
    ensures !remote ==> r.0.code == InvalidControllerState
    ensures remote && group >= |tools| ==> r.0.code == InvalidControlGroup
    ensures remote && group < |tools| && tool >= toolLimit ==> r.0.code == InvalidSelectionIndex
    ensures !r.0.success ==> r.1 == tools
    ensures r.0.success ==>
              |r.1| == |tools| && r.1[group] == tool
              && forall g :: 0 <= g < |tools| && g != group ==> r.1[g] == tools[g]
  {
    if !remote then (Response(false, InvalidControllerState), tools)
    else if group >= |tools| then (Response(false, InvalidControlGroup), tools)
    else if tool >= toolLimit then (Response(false, InvalidSelectionIndex), tools)
    else (Response(true, SelectionOk), tools[group := tool])
  }

  /** The service as written: tool numbers from `MAX_VALID_TOOL_INDEX` on are
      refused, so the index the constant names is itself refused. */
  function SelectAsWritten(remote: bool, tools: seq<nat>, group: nat, tool: nat): (r: (Response, seq<nat>))
    ensures r.0.success <==> remote && group < |tools| && tool < MaxValidToolIndex
  {
    SelectWith(remote, tools, group, tool, MaxValidToolIndex)
  }

  /** The highest valid tool index, by the constant's name, is refused. */
  lemma MaxValidToolRefused(tools: seq<nat>)
    requires |tools| > 0
    ensures SelectAsWritten(true, tools, 0, MaxValidToolIndex).0.code == InvalidSelectionIndex
  {
  }

  /** The service with `MAX_VALID_TOOL_INDEX` as the highest accepted index. */
  function Select(remote: bool, tools: seq<nat>, group: nat, tool: nat): (r: (Response, seq<nat>))
    ensures r.0.success <==> remote && group < |tools| && tool <= MaxValidToolIndex
    ensures r.0.success ==> group < |r.1| == |tools| && r.1[group] == tool
  {
    SelectWith(remote, tools, group, tool, MaxValidToolIndex + 1)
  }

  /** Both versions agree on every tool number other than `MAX_VALID_TOOL_INDEX`. */
  lemma SelectAgreesBelowMax(remote: bool, tools: seq<nat>, group: nat, tool: nat)
    requires tool != MaxValidToolIndex
    ensures SelectAsWritten(remote, tools, group, tool) == Select(remote, tools, group, tool)
  {
  }

  /** Selecting twice for the same group leaves the second tool in place. */
  lemma LastSelectionWins(tools: seq<nat>, group: nat, t1: nat, t2: nat)
    requires group < |tools| && t1 < MaxValidToolIndex && t2 < MaxValidToolIndex
    ensures SelectAsWritten(true, SelectAsWritten(true, tools, group, t1).1, group, t2).1
            == SelectAsWritten(true, tools, group, t2).1
  {
    var once := SelectAsWritten(true, tools, group, t1).1;
    assert once[group := t2] == tools[group := t2];
  }

  /** Selections for different groups do not interfere. */
  lemma SelectionsCommute(tools: seq<nat>, g1: nat, t1: nat, g2: nat, t2: nat)
    requires g1 != g2
    ensures var a := SelectAsWritten(true, SelectAsWritten(true, tools, g1, t1).1, g2, t2).1;
            var b := SelectAsWritten(true, SelectAsWritten(true, tools, g2, t2).1, g1, t1).1;
            a == b
  {
  }
}
