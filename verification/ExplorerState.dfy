/** The stored value of an Explorer run and the changes the service makes to it
    (internal/explorer/service.go). Timestamps, titles and categories are not modelled. */
module ExplorerState {
  import opened Results

  datatype Role = User | Assistant

  /** A conversation block; its id prints as "block-<id>". */
  datatype Block = Block(id: nat, role: Role, content: string, loading: bool)

  datatype Status = Processing | Completed | Error | Awaiting

  datatype PendingInput = PendingInput(id: string, inputType: string)

  /** The decoded state blob. */
  datatype RunState = RunState(runId: nat, blocks: seq<Block>, status: Status, pendingInput: Option<PendingInput>,
                               prStates: map<string, string>, failureReason: Option<string>)

  /** The stored row: the status column beside the blob. */
  datatype Record = Record(organization: int, status: Status, state: RunState)

  datatype Payload =
    | Interrupt
    | UserInputResponse(input: string)   // the trimmed answer, "" when there is none
    | AwaitingUserInput(pending: PendingInput)
    | CreatePR(repoName: string)
    | OtherPayload

  /** One read-modify-write of a run. */
  datatype Change =
    | AssignId(runId: nat)                                // startRun's second write
    | Continue(query: string, insertIndex: Option<int>)   // continueRun
    | Update(payload: Payload)                            // Update
    | Reply(reply: string)                                // completeRun
    | Failure(reason: string)                             // failRun

  function MakeBlock(role: Role, content: string, id: nat): Block { Block(id, role, content, false) }

  function MakeLoadingBlock(id: nat): Block { Block(id, Assistant, "", true) }

  /** What startRun inserts. */
  function NewRecord(organization: int, query: string): Record {
    var blocks := [MakeBlock(User, query, 1), MakeLoadingBlock(2)];
    Record(organization, Processing, RunState(0, blocks, Processing, None, map[], None))
  }

  function AppendTurn(blocks: seq<Block>, query: string): seq<Block> {
    blocks + [MakeBlock(User, query, |blocks| + 1)] + [MakeLoadingBlock(|blocks| + 2)]
  }

  /** The blocks a continued run keeps. */
  function Truncate(blocks: seq<Block>, insertIndex: Option<int>): seq<Block> {
    match insertIndex
    case None => blocks
    case Some(i) =>
      var index := if i < 0 then 0 else i;
      if index < |blocks| then blocks[..index] else blocks
  }

  function LastLoading(blocks: seq<Block>): (i: int)
    ensures -1 <= i < |blocks|
    ensures i >= 0 ==> blocks[i].loading
    ensures forall j :: i < j < |blocks| ==> !blocks[j].loading
  {
    if blocks == [] then -1
    else if blocks[|blocks| - 1].loading then |blocks| - 1
    else LastLoading(blocks[..|blocks| - 1])
  }

  function Resolve(blocks: seq<Block>, reply: string): seq<Block> {
    var i := LastLoading(blocks);
    if i >= 0 then blocks[i := blocks[i].(content := reply, loading := false)]
    else blocks + [MakeBlock(Assistant, reply, |blocks| + 1)]
  }

  /** The blocks that are not loading, which is what dropLoadingBlocks keeps. */
  function Resolved(blocks: seq<Block>): seq<Block> {
    if blocks == [] then []
    else
      var front, last := blocks[..|blocks| - 1], blocks[|blocks| - 1];
      if last.loading then Resolved(front) else Resolved(front) + [last]
  }

  function WithState(r: Record, state: RunState): Record { r.(status := state.status, state := state) }

  function UpdateState(s: RunState, payload: Payload): RunState {
    match payload
    case Interrupt => s.(blocks := Resolved(s.blocks), status := Completed, pendingInput := None)
    case UserInputResponse(input) =>
      if input == "" then s.(status := Completed, pendingInput := None)
      else s.(blocks := AppendTurn(s.blocks, input), status := Processing, pendingInput := None)
    case AwaitingUserInput(pending) => s.(status := Awaiting, pendingInput := Some(pending))
    case CreatePR(repo) => if repo == "" then s else s.(prStates := s.prStates[repo := "completed"])
    case OtherPayload => s
  }

  /** What is written back after reading r. */
  function Transform(r: Record, change: Change, id: nat): Record {
    var s := r.state;
    match change
    case AssignId(runId) => r.(state := s.(runId := runId))
    case Continue(query, insertIndex) =>
      WithState(r, s.(blocks := AppendTurn(Truncate(s.blocks, insertIndex), query), status := Processing,
                      failureReason := None, runId := id))
    case Update(payload) => WithState(r, UpdateState(s, payload).(failureReason := None, runId := id))
    case Reply(reply) =>
      WithState(r, s.(blocks := Resolve(s.blocks, reply), status := Completed, failureReason := None, runId := id))
    case Failure(reason) =>
      WithState(r, s.(blocks := Resolved(s.blocks), status := Error, failureReason := Some(reason)))
  }

  /** A change that is followed by the dispatch of a new task. */
  predicate Dispatches(change: Change) {
    change.AssignId? || change.Continue? ||
    (change.Update? && change.payload.UserInputResponse? && change.payload.input != "")
  }

  // ---- invariants of a stored value ----

  predicate NoneLoading(blocks: seq<Block>) { forall i :: 0 <= i < |blocks| ==> !blocks[i].loading }

  predicate OnlyLastLoads(blocks: seq<Block>) { forall i :: 0 <= i < |blocks| - 1 ==> !blocks[i].loading }

  predicate NumberedInOrder(blocks: seq<Block>) { forall i :: 0 <= i < |blocks| ==> blocks[i].id == i + 1 }

  predicate LoadingIsEmptyAssistant(blocks: seq<Block>) {
    forall i :: 0 <= i < |blocks| && blocks[i].loading ==> blocks[i].role == Assistant && blocks[i].content == ""
  }

  /** What every stored value satisfies. */
  predicate Sound(r: Record) {
    var s := r.state;
    && (s.status == Processing ==> s.blocks != [] && s.blocks[|s.blocks| - 1].loading)
    && (s.status == Error ==> NoneLoading(s.blocks))
    && (s.failureReason.Some? ==> s.status == Error)
    && LoadingIsEmptyAssistant(s.blocks)
    && r.status == s.status
  }

  /** Only the last block may load, block i carries id i + 1, nothing loads in a finished
      run and something does in a processing one. */
  predicate Disciplined(r: Record) {
    var s := r.state;
    && OnlyLastLoads(s.blocks)
    && NumberedInOrder(s.blocks)
    && (s.status == Completed || s.status == Error ==> NoneLoading(s.blocks))
    && (s.status == Processing ==> s.blocks != [] && s.blocks[|s.blocks| - 1].loading)
  }

  /** The caller's side of the turn discipline: a new turn, and an answer to a pending
      question, read a run in which nothing that stays is loading. */
  predicate ReadsClean(r: Record, change: Change) {
    match change
    case Continue(_, insertIndex) => NoneLoading(Truncate(r.state.blocks, insertIndex))
    case Update(UserInputResponse(_)) => NoneLoading(r.state.blocks)
    case _ => true
  }

  /** A failed run says why. */
  predicate Explained(r: Record) { r.state.status == Error ==> r.state.failureReason.Some? }

  /** The caller's side: no pull request is recorded on a failed run, and no unrecognised
      update sent to it. */
  predicate LeavesReason(r: Record, change: Change) {
    r.state.status == Error ==>
      !(change.Update? && (change.payload.CreatePR? || change.payload.OtherPayload?))
  }

  /** A completed run loads nothing. */
  predicate Settled(r: Record) { r.state.status == Completed ==> NoneLoading(r.state.blocks) }

  predicate AtMostOneLoads(blocks: seq<Block>) {
    forall i, j :: 0 <= i < j < |blocks| ==> !(blocks[i].loading && blocks[j].loading)
  }

  /** The caller's side: a reply finds at most one block loading, an empty answer none. */
  predicate LeavesNothingLoading(r: Record, change: Change) {
    match change
    case Reply(_) => AtMostOneLoads(r.state.blocks)
    case Update(UserInputResponse(input)) => input == "" ==> NoneLoading(r.state.blocks)
    case _ => true
  }

  /** A question and its pending reply come after the first k blocks. */
  ghost predicate Asks(before: seq<Block>, k: nat, query: string, after: seq<Block>) {
    && k <= |before| && |after| == k + 2
    && (forall i :: 0 <= i < k ==> after[i] == before[i])
    && after[k] == Block(k + 1, User, query, false)
    && after[k + 1] == Block(k + 2, Assistant, "", true)
  }

  /** A continued run keeps the blocks before the insert index, all of them without one, and
      asks its question after them. */
  lemma ContinueAsks(blocks: seq<Block>, query: string, insertIndex: Option<int>)
    ensures var n := |blocks|;
      var k := if insertIndex.None? || insertIndex.value >= n then n
               else if insertIndex.value < 0 then 0 else insertIndex.value;
      Asks(blocks, k, query, AppendTurn(Truncate(blocks, insertIndex), query))
  {
  }

  lemma {:induction false} ResolvedLoadsNothing(blocks: seq<Block>)
    ensures NoneLoading(Resolved(blocks))
  {
    if blocks != [] { ResolvedLoadsNothing(blocks[..|blocks| - 1]); }
  }

  lemma {:induction false} ResolvedOfQuiet(blocks: seq<Block>)
    requires NoneLoading(blocks)
    ensures Resolved(blocks) == blocks
  {
    if blocks != [] { ResolvedOfQuiet(blocks[..|blocks| - 1]); }
  }

  lemma {:induction false} ResolvedMembers(blocks: seq<Block>, b: Block)
    ensures b in Resolved(blocks) <==> b in blocks && !b.loading
  {
    if blocks != [] {
      assert blocks == blocks[..|blocks| - 1] + [blocks[|blocks| - 1]];
      ResolvedMembers(blocks[..|blocks| - 1], b);
    }
  }

  lemma NewRecordIsGood(organization: int, query: string)
    ensures var r := NewRecord(organization, query); Sound(r) && Disciplined(r) && Settled(r) && Explained(r)
    ensures NewRecord(organization, query).state.pendingInput == None
    ensures NewRecord(organization, query).state.prStates == map[]
  {
  }

  /** Whatever value was read, the value written back is sound. */
  lemma TransformSound(r: Record, change: Change, id: nat)
    requires Sound(r)
    ensures Sound(Transform(r, change, id))
  {
    hide Resolved, LastLoading;
    ResolvedLoadsNothing(r.state.blocks);
  }

  lemma ResolvedTail(blocks: seq<Block>)
    requires OnlyLastLoads(blocks)
    ensures Resolved(blocks) <= blocks
  {
    if blocks != [] { ResolvedOfQuiet(blocks[..|blocks| - 1]); }
  }

  lemma AppendTurnExact(blocks: seq<Block>, query: string)
    requires NumberedInOrder(blocks)
    ensures var after := AppendTurn(blocks, query);
      && NumberedInOrder(after) && after[|after| - 1].loading
      && (OnlyLastLoads(after) <==> NoneLoading(blocks))
  {
    var after := AppendTurn(blocks, query);
    assert forall i :: 0 <= i < |blocks| ==> after[i] == blocks[i];
  }

  /** A change keeps the turn discipline exactly when its caller kept its side. */
  lemma DisciplineExact(r: Record, change: Change, id: nat)
    requires Disciplined(r)
    ensures Disciplined(Transform(r, change, id)) <==> ReadsClean(r, change)
  {
    hide Resolved, LastLoading;
    var blocks := r.state.blocks;
    match change
    case Continue(query, insertIndex) => AppendTurnExact(Truncate(blocks, insertIndex), query);
    case Update(UserInputResponse(input)) => AppendTurnExact(blocks, input);
    case Update(Interrupt) =>
      ResolvedTail(blocks);
      ResolvedLoadsNothing(blocks);
    case Failure(_) =>
      ResolvedTail(blocks);
      ResolvedLoadsNothing(blocks);
    case _ =>
  }

  /** The changes that leave another question pending, or none. */
  predicate SetsPending(change: Change) {
    change.Update? &&
    (change.payload.Interrupt? || change.payload.UserInputResponse? || change.payload.AwaitingUserInput?)
  }

  /** An awaiting_user_input update leaves its question pending, an interrupt and an answer
      leave none, and every other change keeps what was read. */
  lemma PendingAfter(r: Record, change: Change, id: nat)
    ensures var before, after := r.state, Transform(r, change, id).state;
      && (SetsPending(change) ==>
            after.pendingInput == if change.payload.AwaitingUserInput? then Some(change.payload.pending) else None)
      && (!SetsPending(change) ==> after.pendingInput == before.pendingInput)
      && (change.Update? && change.payload.AwaitingUserInput? ==> after.status == Awaiting)
  {
    hide Resolved, Resolve, Truncate;
  }

  /** A create_pr update that names a repository completes its pull request; nothing else
      touches an entry. */
  lemma PullRequestsAfter(r: Record, change: Change, id: nat)
    ensures var before, after := r.state.prStates, Transform(r, change, id).state.prStates;
      if change.Update? && change.payload.CreatePR? && change.payload.repoName != ""
      then after == before[change.payload.repoName := "completed"] else after == before
  {
    hide Resolved, Resolve, Truncate;
  }

  /** A change keeps "a failed run has a reason" exactly when it is not a pull request update
      or an unrecognised one of a failed run: every update clears the reason, and those two
      leave the status. */
  lemma ReasonExact(r: Record, change: Change, id: nat)
    requires Explained(r)
    ensures Explained(Transform(r, change, id)) <==> LeavesReason(r, change)
  {
    hide Resolved, Resolve, NoneLoading;
  }

  /** Filling in the last loading block leaves none exactly when there was at most one. */
  lemma ResolveLeavesNone(blocks: seq<Block>, reply: string)
    ensures NoneLoading(Resolve(blocks, reply)) <==> AtMostOneLoads(blocks)
  {
    hide LastLoading;
    var i, after := LastLoading(blocks), Resolve(blocks, reply);
    if i < 0 {
      assert NoneLoading(blocks);
    } else if NoneLoading(after) {
      assert forall j :: 0 <= j < |blocks| && j != i ==> after[j] == blocks[j];
    }
  }

  /** A change keeps "a completed run loads nothing" exactly when a reply found at most one
      block loading, and an empty answer none. */
  lemma SettledExact(r: Record, change: Change, id: nat)
    requires Settled(r)
    ensures Settled(Transform(r, change, id)) <==> LeavesNothingLoading(r, change)
  {
    hide Resolved, Resolve, NoneLoading, AtMostOneLoads;
    if change.Reply? { ResolveLeavesNone(r.state.blocks, change.reply); }
    ResolvedLoadsNothing(r.state.blocks);
  }

  /** Two runs of blocks around the reply that was filled in. */
  lemma {:induction false} ResolvedConcat(a: seq<Block>, b: seq<Block>)
    ensures Resolved(a + b) == Resolved(a) + Resolved(b)
  {
    if b == [] {
      assert a + b == a;
    } else {
      assert (a + b)[..|a + b| - 1] == a + b[..|b| - 1];
      ResolvedConcat(a, b[..|b| - 1]);
    }
  }

  /** The user's messages, in order. */
  function Messages(blocks: seq<Block>): seq<string> {
    if blocks == [] then []
    else
      var front, last := blocks[..|blocks| - 1], blocks[|blocks| - 1];
      Messages(front) + if last.role == User then [last.content] else []
  }

  lemma {:induction false} ResolvedMessages(blocks: seq<Block>)
    requires LoadingIsEmptyAssistant(blocks)
    ensures Messages(Resolved(blocks)) == Messages(blocks)
  {
    if blocks != [] { ResolvedMessages(blocks[..|blocks| - 1]); }
  }

  lemma {:induction false} ResolvedTwice(blocks: seq<Block>)
    ensures Resolved(Resolved(blocks)) == Resolved(blocks)
  {
    if blocks != [] { ResolvedTwice(blocks[..|blocks| - 1]); }
  }

  lemma OneMoreBlock(blocks: seq<Block>, b: Block)
    ensures Resolved(blocks + [b]) == Resolved(blocks) + if b.loading then [] else [b]
    ensures Messages(blocks + [b]) == Messages(blocks) + if b.role == User then [b.content] else []
  {
    assert (blocks + [b])[..|blocks|] == blocks;
  }

  /** A reply adds one resolved assistant block that holds it, in the place of the last
      loading block or at the end, and leaves every other block as it was. */
  lemma ReplyConserves(blocks: seq<Block>, reply: string) returns (before: seq<Block>, answer: Block, after: seq<Block>)
    requires LoadingIsEmptyAssistant(blocks)
    ensures Resolved(blocks) == before + after
    ensures Resolved(Resolve(blocks, reply)) == before + [answer] + after
    ensures answer.role == Assistant && answer.content == reply && !answer.loading
    ensures Messages(Resolve(blocks, reply)) == Messages(blocks)
  {
    hide Resolved, Messages;
    var i := LastLoading(blocks);
    if i < 0 {
      answer := MakeBlock(Assistant, reply, |blocks| + 1);
      before, after := Resolved(blocks), [];
      OneMoreBlock(blocks, answer);
    } else {
      answer := blocks[i].(content := reply, loading := false);
      before, after := Resolved(blocks[..i]), Resolved(blocks[i + 1..]);
      assert blocks[i := blocks[i]] == blocks;
      AroundOne(blocks, i, blocks[i]);
      AroundOne(blocks, i, answer);
    }
  }

  lemma AroundOne(blocks: seq<Block>, i: nat, b: Block)
    requires i < |blocks| && b.role == Assistant
    ensures Resolved(blocks[i := b])
         == Resolved(blocks[..i]) + (if b.loading then [] else [b]) + Resolved(blocks[i + 1..])
    ensures Messages(blocks[i := b]) == Messages(blocks[..i]) + Messages(blocks[i + 1..])
  {
    hide Resolved, Messages;
    var front, back := blocks[..i], blocks[i + 1..];
    assert blocks[i := b] == front + [b] + back;
    OneMoreBlock(front, b);
    ResolvedConcat(front + [b], back);
    MessagesConcat(front + [b], back);
  }

  lemma {:induction false} MessagesConcat(a: seq<Block>, b: seq<Block>)
    ensures Messages(a + b) == Messages(a) + Messages(b)
  {
    if b == [] {
      assert a + b == a;
    } else {
      assert (a + b)[..|a + b| - 1] == a + b[..|b| - 1];
      MessagesConcat(a, b[..|b| - 1]);
    }
  }

  /** A new turn adds exactly its question to the conversation; nothing resolved changes. */
  lemma TurnConserves(blocks: seq<Block>, query: string)
    ensures Resolved(AppendTurn(blocks, query)) == Resolved(blocks) + [MakeBlock(User, query, |blocks| + 1)]
    ensures Messages(AppendTurn(blocks, query)) == Messages(blocks) + [query]
  {
    var question, pending := MakeBlock(User, query, |blocks| + 1), MakeLoadingBlock(|blocks| + 2);
    hide Resolved, Messages;
    var asked := blocks + [question];
    OneMoreBlock(blocks, question);
    OneMoreBlock(asked, pending);
    assert Resolved(asked) + [] == Resolved(asked) && Messages(asked) + [] == Messages(asked);
  }

  /** One more answer, in the place of a loading block or at the end, and nothing else. */
  ghost predicate OneMoreAnswer(before: seq<Block>, reply: string, after: seq<Block>) {
    exists a: seq<Block>, b: seq<Block>, answer: Block ::
      && before == a + b && after == a + [answer] + b
      && answer.role == Assistant && answer.content == reply && !answer.loading
  }

  /** But for the blocks an insert index cuts off, no user message and no resolved block is
      dropped or altered. Only a reply adds a resolved assistant block, and exactly one; a
      failure and an interrupt add none. */
  ghost predicate Conserves(before: seq<Block>, change: Change, after: seq<Block>) {
    var kept := if change.Continue? then Truncate(before, change.insertIndex) else before;
    && Messages(kept) <= Messages(after)
    && match change {
         case Reply(reply) => OneMoreAnswer(Resolved(kept), reply, Resolved(after))
         case Continue(query, _) => Resolved(after) == Resolved(kept) + [MakeBlock(User, query, |kept| + 1)]
         case Update(UserInputResponse(input)) =>
           Resolved(after) == Resolved(kept) + if input == "" then [] else [MakeBlock(User, input, |kept| + 1)]
         case _ => Resolved(after) == Resolved(kept)
       }
  }

  /** Conversation conservation for one read-modify-write. */
  lemma Conservation(r: Record, change: Change, id: nat)
    requires Sound(r)
    ensures Conserves(r.state.blocks, change, Transform(r, change, id).state.blocks)
  {
    hide Resolved, Messages, Resolve;
    var blocks := r.state.blocks;
    match change
    case Reply(reply) =>
      var a, answer, b := ReplyConserves(blocks, reply);
      assert OneMoreAnswer(Resolved(blocks), reply, Resolved(Resolve(blocks, reply)));
    case Continue(query, insertIndex) => TurnConserves(Truncate(blocks, insertIndex), query);
    case Update(UserInputResponse(input)) => TurnConserves(blocks, input);
    case _ =>
      ResolvedMessages(blocks);
      ResolvedTwice(blocks);
  }
}
