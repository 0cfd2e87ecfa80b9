/** The service's operations on the explorer_runs table, each run by itself
    (internal/explorer/service.go). ExplorerProtocol interleaves their statements. */
module ExplorerService {
  import opened Results
  import opened ExplorerState

  /** The reply stands in the last loading block, or at the end when none loads. */
  ghost predicate HoldsReply(before: seq<Block>, reply: string, after: seq<Block>) {
    if forall j :: 0 <= j < |before| ==> !before[j].loading
    then after == before + [Block(|before| + 1, Assistant, reply, false)]
    else exists i :: 0 <= i < |before| && before[i].loading && (forall j :: i < j < |before| ==> !before[j].loading)
           && after == before[i := Block(before[i].id, before[i].role, reply, false)]
  }

  /** resolveLoadingBlock: search backwards, fill in, or append. */
  method ResolveLoadingBlock(blocks: seq<Block>, reply: string) returns (out: seq<Block>)
    ensures out == Resolve(blocks, reply) && HoldsReply(blocks, reply, out)
  {
    out := blocks;
    var i := |blocks| - 1;
    while i >= 0
      invariant -1 <= i < |blocks|
      invariant forall j :: i < j < |blocks| ==> !blocks[j].loading
    {
      if out[i].loading {
        out := out[i := out[i].(content := reply, loading := false)];
        return;
      }
      i := i - 1;
    }
    out := out + [MakeBlock(Assistant, reply, |blocks| + 1)];
  }

  /** dropLoadingBlocks: keep what is not loading. */
  method DropLoadingBlocks(blocks: seq<Block>) returns (kept: seq<Block>)
    ensures kept == Resolved(blocks)
  {
    kept := [];
    for i := 0 to |blocks|
      invariant kept == Resolved(blocks[..i])
    {
      assert blocks[..i + 1][..i] == blocks[..i];
      if !blocks[i].loading {
        kept := kept + [blocks[i]];
      }
    }
    assert blocks[..|blocks|] == blocks;
  }

  class Service {
    /** explorer_runs by id, and the id the next INSERT gets. */
    var rows: map<nat, Record>
    var nextId: nat

    ghost predicate Valid()
      reads this
    {
      && (forall id :: id in rows ==> id < nextId && Sound(rows[id]))
      && nextId > 0
    }

    constructor ()
      ensures Valid() && rows == map[]
    {
      rows, nextId := map[], 1;
    }

    predicate Found(id: nat, organization: int)
      reads this
    {
      id in rows && rows[id].organization == organization
    }

    /** startRun: the row is inserted without its id in the blob, then written again. */
    method StartRun(organization: int, query: string) returns (id: nat, dispatched: bool)
      requires Valid()
      modifies this
      ensures Valid() && dispatched
      ensures id in rows && rows == old(rows)[id := rows[id]]
      ensures rows[id].organization == organization && rows[id].status == Processing
      ensures var s := rows[id].state;
        && s.blocks == [Block(1, User, query, false), Block(2, Assistant, "", true)]
        && s.runId == id && s.status == Processing
        && s.pendingInput == None && s.prStates == map[] && s.failureReason == None
      ensures id !in old(rows) && rows == old(rows)[id := Transform(NewRecord(organization, query), AssignId(id), id)]
    {
      var state := RunState(0, [MakeBlock(User, query, 1), MakeLoadingBlock(2)], Processing, None, map[], None);
      var record := Record(organization, Processing, state);
      id := nextId;
      rows, nextId := rows[id := record], nextId + 1;
      state := state.(runId := id);
      record := record.(state := state);
      NewRecordIsGood(organization, query);
      TransformSound(NewRecord(organization, query), AssignId(id), id);
      rows := rows[id := record];
      dispatched := true;
    }

    method ContinueRun(id: nat, organization: int, query: string, insertIndex: Option<int>) returns (found: bool)
      requires Valid()
      modifies this
      ensures Valid() && found == old(Found(id, organization))
      ensures found ==> id in rows && rows == old(rows)[id := rows[id]]
      ensures found ==>
        var before, after := old(rows)[id].state, rows[id].state;
        var n := |before.blocks|;
        var k := if insertIndex.None? || insertIndex.value >= n then n
                 else if insertIndex.value < 0 then 0 else insertIndex.value;
        && Asks(before.blocks, k, query, after.blocks)
        && after.runId == id && after.status == Processing == rows[id].status && after.failureReason == None
        && after.pendingInput == before.pendingInput && after.prStates == before.prStates
        && rows[id].organization == organization
      ensures rows == if found then old(rows)[id := Transform(old(rows)[id], Continue(query, insertIndex), id)]
                      else old(rows)
    {
      if !Found(id, organization) {
        return false;
      }
      var record := rows[id];
      var state := record.state;
      var blocks := state.blocks;
      if insertIndex.Some? {
        var index := insertIndex.value;
        if index < 0 {
          index := 0;
        }
        if index < |blocks| {
          blocks := blocks[..index];
        }
      }
      assert blocks == Truncate(record.state.blocks, insertIndex);
      blocks := blocks + [MakeBlock(User, query, |blocks| + 1)] + [MakeLoadingBlock(|blocks| + 2)];
      hide Sound, Truncate, Asks;
      TransformSound(record, Continue(query, insertIndex), id);
      ContinueAsks(record.state.blocks, query, insertIndex);
      state := state.(blocks := blocks, status := Processing, failureReason := None, runId := id);
      rows := rows[id := record.(status := state.status, state := state)];
      return true;
    }

    /** Update; `resumed` says that a task is dispatched for the answer. */
    method ApplyUpdate(id: nat, organization: int, payload: Payload) returns (found: bool, resumed: bool)
      requires Valid()
      modifies this
      ensures Valid() && found == old(Found(id, organization))
      ensures rows == if found then old(rows)[id := Transform(old(rows)[id], Update(payload), id)] else old(rows)
      ensures resumed <==> found && payload.UserInputResponse? && payload.input != ""
      ensures found ==> id in rows && rows == old(rows)[id := rows[id]]
      ensures found ==>
        var before, after := old(rows)[id].state, rows[id].state;
        && after.runId == id && after.failureReason == None
        && rows[id].status == after.status && rows[id].organization == organization
        && match payload {
             case Interrupt =>
               after.blocks == Resolved(before.blocks) && after.status == Completed && after.pendingInput == None
               && after.prStates == before.prStates
             case UserInputResponse(input) =>
               && (if input == "" then after.blocks == before.blocks && after.status == Completed
                   else Asks(before.blocks, |before.blocks|, input, after.blocks) && after.status == Processing)
               && after.pendingInput == None && after.prStates == before.prStates
             case AwaitingUserInput(pending) =>
               after.blocks == before.blocks && after.status == Awaiting && after.pendingInput == Some(pending)
               && after.prStates == before.prStates
             case CreatePR(repoName) =>
               after.blocks == before.blocks && after.status == before.status
               && after.pendingInput == before.pendingInput
               && after.prStates == if repoName == "" then before.prStates
                                    else before.prStates[repoName := "completed"]
             case OtherPayload =>
               after.blocks == before.blocks && after.status == before.status
               && after.pendingInput == before.pendingInput && after.prStates == before.prStates
           }
    {
      if !Found(id, organization) {
        return false, false;
      }
      var record := rows[id];
      var state := record.state;
      var resumeQuery := "";
      match payload {
        case Interrupt =>
          var kept := DropLoadingBlocks(state.blocks);
          state := state.(blocks := kept, status := Completed, pendingInput := None);
        case UserInputResponse(input) =>
          resumeQuery := input;
          state := state.(pendingInput := None);
          if resumeQuery == "" {
            state := state.(status := Completed);
          } else {
            var n := |state.blocks|;
            state := state.(blocks := state.blocks + [MakeBlock(User, resumeQuery, n + 1)] + [MakeLoadingBlock(n + 2)],
                            status := Processing);
          }
        case AwaitingUserInput(pending) =>
          state := state.(status := Awaiting, pendingInput := Some(pending));
        case CreatePR(repoName) =>
          if repoName != "" {
            state := state.(prStates := state.prStates[repoName := "completed"]);
          }
        case OtherPayload =>
      }
      hide Sound;
      TransformSound(record, Update(payload), id);
      state := state.(failureReason := None, runId := id);
      rows := rows[id := record.(status := state.status, state := state)];
      return true, resumeQuery != "";
    }

    method CompleteRun(id: nat, reply: string) returns (found: bool)
      requires Valid()
      modifies this
      ensures Valid() && found == (id in old(rows))
      ensures found ==> id in rows && rows == old(rows)[id := rows[id]]
      ensures found ==>
        var before, after := old(rows)[id].state, rows[id].state;
        && HoldsReply(before.blocks, reply, after.blocks)
        && after.runId == id && after.status == Completed == rows[id].status && after.failureReason == None
        && after.pendingInput == before.pendingInput && after.prStates == before.prStates
        && rows[id].organization == old(rows)[id].organization
      ensures rows == if found then old(rows)[id := Transform(old(rows)[id], Reply(reply), id)] else old(rows)
    {
      if id !in rows {
        return false;
      }
      var record := rows[id];
      var blocks := ResolveLoadingBlock(record.state.blocks, reply);
      TransformSound(record, Reply(reply), id);
      var state := record.state.(blocks := blocks, status := Completed, failureReason := None, runId := id);
      rows := rows[id := record.(status := state.status, state := state)];
      return true;
    }

    method FailRun(id: nat, reason: string) returns (found: bool)
      requires Valid()
      modifies this
      ensures Valid() && found == (id in old(rows))
      ensures found ==> id in rows && rows == old(rows)[id := rows[id]]
      ensures found ==>
        var before, after := old(rows)[id].state, rows[id].state;
        && after.blocks == Resolved(before.blocks)
        && after.runId == before.runId && after.status == Error == rows[id].status
        && after.failureReason == Some(reason)
        && after.pendingInput == before.pendingInput && after.prStates == before.prStates
        && rows[id].organization == old(rows)[id].organization
      ensures rows == if found then old(rows)[id := Transform(old(rows)[id], Failure(reason), id)] else old(rows)
    {
      if id !in rows {
        return false;
      }
      var record := rows[id];
      var kept := DropLoadingBlocks(record.state.blocks);
      TransformSound(record, Failure(reason), id);
      var state := record.state.(blocks := kept, status := Error, failureReason := Some(reason));
      rows := rows[id := record.(status := state.status, state := state)];
      return true;
    }
  }
}
