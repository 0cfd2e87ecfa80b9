/** Coding-agent state of autofix runs: requests that set and update it, and background
    tasks that write it back from the snapshot they were given (internal/autofix/service.go). */
module Autofix {
  import opened Results
  import opened Sets

  /** One agent's object; the values are opaque. */
  type Fields = map<string, string>

  type Agents = map<string, Fields>

  /** The state blob; keys other than coding_agents and failure_reason pass through. */
  datatype Blob = Blob(agents: Agents, failureReason: Option<string>)

  datatype Status = Processing | Completed | Error

  datatype Row = Row(status: Status, blob: Blob)

  type Rows = map<int, Row>

  /** One element of coding_agent_states; id is "" when it has none. */
  datatype Item = Item(id: string, fields: Fields)

  function AgentsOf(items: seq<Item>): Agents {
    if items == [] then map[]
    else
      var last := items[|items| - 1];
      if last.id == "" then AgentsOf(items[..|items| - 1]) else AgentsOf(items[..|items| - 1])[last.id := last.fields]
  }

  /** The ids that the items of a request name. */
  function Named(items: seq<Item>): set<string> { set i | 0 <= i < |items| && items[i].id != "" :: items[i].id }

  /** Item i is the last under its id. */
  ghost predicate LastUnder(items: seq<Item>, i: nat)
    requires i < |items|
  {
    forall j :: i < j < |items| ==> items[j].id != items[i].id
  }

  lemma {:induction false} AgentIds(items: seq<Item>)
    ensures AgentsOf(items).Keys == Named(items)
  {
    if items != [] {
      var front, last := items[..|items| - 1], |items| - 1;
      AgentIds(front);
      OneMoreName(items);
    }
  }

  lemma OneMoreName(items: seq<Item>)
    requires items != []
    ensures var last := items[|items| - 1].id;
      Named(items) == Named(items[..|items| - 1]) + if last == "" then {} else {last}
  {
    var front := items[..|items| - 1];
    forall id | id in Named(items) ensures id in Named(front) || id == items[|items| - 1].id {
      var i :| 0 <= i < |items| && items[i].id != "" && items[i].id == id;
      if i < |front| { assert front[i].id == id; }
    }
    forall id | id in Named(front) ensures id in Named(items) {
      var i :| 0 <= i < |front| && front[i].id != "" && front[i].id == id;
      assert items[i].id == id;
    }
  }

  lemma {:induction false} AgentFields(items: seq<Item>, i: nat)
    requires i < |items| && items[i].id != "" && LastUnder(items, i)
    ensures items[i].id in AgentsOf(items) && AgentsOf(items)[items[i].id] == items[i].fields
  {
    if i < |items| - 1 {
      assert items[|items| - 1].id != items[i].id;
      AgentFields(items[..|items| - 1], i);
    }
  }

  /** An id is stored exactly when it is not empty and some item carries it, with the fields
      of the last item that does. */
  lemma AgentsAre(items: seq<Item>)
    ensures AgentsOf(items).Keys == Named(items)
    ensures forall i: nat :: i < |items| && items[i].id != "" && LastUnder(items, i) ==>
      items[i].id in AgentsOf(items) && AgentsOf(items)[items[i].id] == items[i].fields
  {
    hide AgentsOf, Named, LastUnder;
    AgentIds(items);
    forall i: nat | i < |items| && items[i].id != "" && LastUnder(items, i)
      ensures items[i].id in AgentsOf(items) && AgentsOf(items)[items[i].id] == items[i].fields
    {
      AgentFields(items, i);
    }
  }

  function SetBlob(read: Option<Blob>, items: seq<Item>): Blob {
    if read.None? then Blob(AgentsOf(items), None) else read.value.(agents := AgentsOf(items))
  }

  function UpdateBlob(blob: Blob, agent: string, updates: Fields): Blob {
    var current := if agent in blob.agents then blob.agents[agent] else map["id" := agent];
    blob.(agents := blob.agents[agent := current + updates])
  }

  /** What the model said about an agent, trimmed; "" when it said nothing usable. */
  type ModelReply = map<string, string>

  function AdvanceBlob(blob: Blob, reply: ModelReply): Blob {
    blob.(agents := map id | id in blob.agents :: AdvanceAgent(blob.agents[id], id, reply))
  }

  function AdvanceAgent(fields: Fields, id: string, reply: ModelReply): Fields {
    if id in reply && reply[id] != "" then fields["advancement" := reply[id]] else fields
  }

  function FailBlob(blob: Blob, reason: string): Blob { blob.(failureReason := Some(reason)) }

  /** UPDATE ... WHERE id = ?. */
  function Written(rows: Rows, run: int, status: Status, blob: Blob): Rows {
    if run in rows then rows[run := Row(status, blob)] else rows
  }

  /** INSERT ... ON CONFLICT(id) DO NOTHING. */
  function Inserted(rows: Rows, run: int, blob: Blob): Rows {
    if run in rows then rows else rows[run := Row(Processing, blob)]
  }

  predicate Owns(rows: Rows, run: int, agent: string) { run in rows && agent in rows[run].blob.agents }

  /** The run findRunByAgentID answers: the one with the smallest id that has the agent. */
  ghost predicate IsOwner(rows: Rows, agent: string, found: Option<int>) {
    match found
    case None => forall run :: !Owns(rows, run, agent)
    case Some(run) => Owns(rows, run, agent) && forall other :: Owns(rows, other, agent) ==> run <= other
  }

  class Service {
    var rows: Rows

    constructor ()
      ensures rows == map[]
    {
      rows := map[];
    }

    method CollectAgents(items: seq<Item>) returns (agents: Agents)
      ensures agents == AgentsOf(items)
      ensures forall id :: id in agents <==> id != "" && exists i :: 0 <= i < |items| && items[i].id == id
      ensures forall i: nat :: i < |items| && items[i].id != "" && LastUnder(items, i) ==>
        items[i].id in agents && agents[items[i].id] == items[i].fields
    {
      AgentsAre(items);
      agents := map[];
      for i := 0 to |items|
        invariant agents == AgentsOf(items[..i])
      {
        assert items[..i + 1][..i] == items[..i];
        if items[i].id != "" {
          agents := agents[items[i].id := items[i].fields];
        }
      }
      assert items[..|items|] == items;
    }

    /** The state a set request stores is also what its advancement task starts from. */
    method StoreCodingAgentStates(run: int, items: seq<Item>) returns (payload: Blob)
      modifies this
      ensures payload == SetBlob(if run in old(rows) then Some(old(rows)[run].blob) else None, items)
      ensures rows == old(rows)[run := Row(Processing, payload)]
      ensures payload.failureReason == if run in old(rows) then old(rows)[run].blob.failureReason else None
      ensures payload.agents.Keys == Named(items)
      ensures forall i: nat :: i < |items| && items[i].id != "" && LastUnder(items, i) ==>
        items[i].id in payload.agents && payload.agents[items[i].id] == items[i].fields
    {
      AgentsAre(items);
      var agents := CollectAgents(items);
      if run !in rows {
        payload := Blob(agents, None);
        rows := Inserted(rows, run, payload);
      } else {
        payload := rows[run].blob.(agents := agents);
        rows := Written(rows, run, Processing, payload);
      }
    }

    method FindRunByAgentID(agent: string) returns (found: Option<int>)
      ensures IsOwner(rows, agent, found)
      ensures found.Some? ==> found.value in rows && agent in rows[found.value].blob.agents
      ensures forall run :: run in rows && agent in rows[run].blob.agents ==> found.Some? && found.value <= run
    {
      found := None;
      var runs := rows.Keys;
      while runs != {}
        invariant runs <= rows.Keys
        invariant found.Some? ==> Owns(rows, found.value, agent)
        invariant forall run :: run !in runs && Owns(rows, run, agent) ==> found.Some? && found.value <= run
        decreases |runs|
      {
        ghost var member := HasMember(runs);
        var run :| run in runs;
        if Owns(rows, run, agent) && (found.None? || run < found.value) {
          found := Some(run);
        }
        runs := runs - {run};
      }
      forall run | run in rows && agent in rows[run].blob.agents ensures found.Some? && found.value <= run {
        assert Owns(rows, run, agent);
      }
    }

    method UpdateCodingAgentState(agent: string, updates: Fields) returns (run: Option<int>)
      modifies this
      ensures IsOwner(old(rows), agent, run)
      ensures run.None? ==> rows == old(rows)
      ensures run.Some? ==>
        var before := old(rows)[run.value].blob;
        rows == old(rows)[run.value :=
          Row(Processing, before.(agents := before.agents[agent := before.agents[agent] + updates]))]
      ensures rows == if run.None? then old(rows)
                      else Written(old(rows), run.value, Processing,
                                   UpdateBlob(old(rows)[run.value].blob, agent, updates))
    {
      run := FindRunByAgentID(agent);
      if run.Some? {
        var blob := rows[run.value].blob;
        var current := blob.agents[agent] + updates;
        rows := Written(rows, run.value, Processing, blob.(agents := blob.agents[agent := current]));
      }
    }

    /** The merge loop: one entry of the model's reply at a time, in any order. */
    method MergeReply(blob: Blob, reply: ModelReply) returns (merged: Blob)
      ensures merged == AdvanceBlob(blob, reply)
      ensures merged.failureReason == blob.failureReason && merged.agents.Keys == blob.agents.Keys
      ensures forall id :: id in blob.agents ==>
        merged.agents[id] == if id in reply && reply[id] != "" then blob.agents[id]["advancement" := reply[id]]
                             else blob.agents[id]
    {
      var agents := blob.agents;
      var ids := reply.Keys;
      while ids != {}
        invariant ids <= reply.Keys && agents.Keys == blob.agents.Keys
        invariant forall id :: id in agents ==>
          agents[id] == if id in ids then blob.agents[id] else AdvanceAgent(blob.agents[id], id, reply)
        decreases |ids|
      {
        ghost var member := HasMember(ids);
        var id :| id in ids;
        if id in agents && reply[id] != "" {
          agents := agents[id := agents[id]["advancement" := reply[id]]];
        }
        ids := ids - {id};
      }
      merged := blob.(agents := agents);
    }

    /** agentAdvancementTask.Run, given whether shutdown had begun when it started and the
        model's reply (none: the call failed, for the given reason). */
    method RunAdvancement(run: int, payload: Blob, stopping: bool, reply: Option<ModelReply>, reason: string)
      modifies this
      ensures run !in old(rows) ==> rows == old(rows)
      ensures run in old(rows) ==>
        && run in rows && rows == old(rows)[run := rows[run]]
        && rows[run].status == (if stopping || (payload.agents != map[] && reply.None?) then Error else Completed)
        && rows[run].blob.agents.Keys == payload.agents.Keys
        && rows[run].blob.failureReason ==
             (if stopping then Some("shutdown")
              else if payload.agents != map[] && reply.None? then Some(reason) else payload.failureReason)
        && forall id :: id in payload.agents ==>
             rows[run].blob.agents[id] ==
               if !stopping && reply.Some? && id in reply.value && reply.value[id] != ""
               then payload.agents[id]["advancement" := reply.value[id]] else payload.agents[id]
      ensures rows ==
        if stopping then Written(old(rows), run, Error, FailBlob(payload, "shutdown"))
        else if payload.agents == map[] then Written(old(rows), run, Completed, payload)
        else if reply.None? then Written(old(rows), run, Error, FailBlob(payload, reason))
        else Written(old(rows), run, Completed, AdvanceBlob(payload, reply.value))
    {
      if stopping {
        rows := Written(rows, run, Error, payload.(failureReason := Some("shutdown")));
      } else if payload.agents == map[] {
        rows := Written(rows, run, Completed, payload);
      } else if reply.None? {
        rows := Written(rows, run, Error, payload.(failureReason := Some(reason)));
      } else {
        var merged := MergeReply(payload, reply.value);
        rows := Written(rows, run, Completed, merged);
      }
    }
  }

  // ---- interleavings, one statement a step ----

  /** A request between its read and its write, or a task with the snapshot it was given. */
  datatype Worker =
    | Setting(run: int, items: seq<Item>, read: Option<Blob>)
    | Updating(run: int, agent: string, updates: Fields, blob: Blob)
    | Advancing(run: int, snapshot: Blob)

  /** requested holds, for every set request so far, its run and the agents it named. */
  datatype World = World(rows: Rows, workers: map<nat, Worker>, requested: set<(int, set<string>)>)

  datatype Step =
    | BeginSet(w: nat, run: int, items: seq<Item>)
    | FinishSet(w: nat, task: nat)
    | BeginUpdate(w: nat, run: int, agent: string, updates: Fields)
    | FinishUpdate(w: nat)
    | FinishAdvance(w: nat, reply: ModelReply)
    | FailAdvance(w: nat, reason: string)
    | Drop(w: nat) // a store call fails before the write

  const START := World(map[], map[], {})

  predicate Enabled(s: World, step: Step) {
    match step
    case BeginSet(w, _, _) => w !in s.workers
    case FinishSet(w, task) => w in s.workers && s.workers[w].Setting? && task !in s.workers
    case BeginUpdate(w, run, agent, _) => w !in s.workers && Owns(s.rows, run, agent)
    case FinishUpdate(w) => w in s.workers && s.workers[w].Updating?
    case FinishAdvance(w, _) => w in s.workers && s.workers[w].Advancing?
    case FailAdvance(w, _) => w in s.workers && s.workers[w].Advancing?
    case Drop(w) => w in s.workers
  }

  function Apply(s: World, step: Step): World
    requires Enabled(s, step)
  {
    match step
    case BeginSet(w, run, items) =>
      s.(workers := s.workers[w := Setting(run, items, if run in s.rows then Some(s.rows[run].blob) else None)],
         requested := s.requested + {(run, AgentsOf(items).Keys)})
    case FinishSet(w, task) =>
      var Setting(run, items, read) := s.workers[w];
      var payload := SetBlob(read, items);
      World(if read.None? then Inserted(s.rows, run, payload) else Written(s.rows, run, Processing, payload),
            (s.workers - {w})[task := Advancing(run, payload)], s.requested)
    case BeginUpdate(w, run, agent, updates) =>
      s.(workers := s.workers[w := Updating(run, agent, updates, s.rows[run].blob)])
    case FinishUpdate(w) =>
      var Updating(run, agent, updates, blob) := s.workers[w];
      s.(rows := Written(s.rows, run, Processing, UpdateBlob(blob, agent, updates)), workers := s.workers - {w})
    case FinishAdvance(w, reply) =>
      var Advancing(run, snapshot) := s.workers[w];
      s.(rows := Written(s.rows, run, Completed, AdvanceBlob(snapshot, reply)), workers := s.workers - {w})
    case FailAdvance(w, reason) =>
      var Advancing(run, snapshot) := s.workers[w];
      s.(rows := Written(s.rows, run, Error, FailBlob(snapshot, reason)), workers := s.workers - {w})
    case Drop(w) => s.(workers := s.workers - {w})
  }

  function Exec(steps: seq<Step>): Option<World> {
    if steps == [] then Some(START)
    else
      var before, step := Exec(steps[..|steps| - 1]), steps[|steps| - 1];
      if before.Some? && Enabled(before.value, step) then Some(Apply(before.value, step)) else None
  }

  /** Without interruption a set request stores what StoreCodingAgentStates stores, and its
      task starts from that. */
  lemma SetIsMethod(s: World, w: nat, task: nat, run: int, items: seq<Item>)
    requires w !in s.workers && task !in s.workers && w != task
    ensures Enabled(s, BeginSet(w, run, items)) && Enabled(Apply(s, BeginSet(w, run, items)), FinishSet(w, task))
    ensures var s' := Apply(Apply(s, BeginSet(w, run, items)), FinishSet(w, task));
      && run in s'.rows && s'.rows == s.rows[run := s'.rows[run]] && s'.rows[run].status == Processing
      && s'.rows[run].blob.agents.Keys == Named(items)
      && s'.rows[run].blob.failureReason == (if run in s.rows then s.rows[run].blob.failureReason else None)
      && s'.workers == s.workers[task := Advancing(run, s'.rows[run].blob)]
  {
    hide AgentsOf, Named;
    AgentsAre(items);
    var begun := Apply(s, BeginSet(w, run, items));
    assert begun.workers - {w} == s.workers;
  }

  /** Without interruption an update changes the agent it names, and an advancement writes
      back the snapshot its task was given. */
  lemma WriteBacksAreMethods(
      s: World, w: nat, run: int, agent: string, updates: Fields, reply: ModelReply, reason: string)
    ensures w !in s.workers && Owns(s.rows, run, agent) ==>
      var begun := Apply(s, BeginUpdate(w, run, agent, updates));
      && Enabled(begun, FinishUpdate(w))
      && var blob := s.rows[run].blob;
         Apply(begun, FinishUpdate(w)).rows ==
           s.rows[run := Row(Processing, blob.(agents := blob.agents[agent := blob.agents[agent] + updates]))]
    ensures w in s.workers && s.workers[w].Advancing? && s.workers[w].run in s.rows ==>
      var Advancing(owner, snapshot) := s.workers[w];
      var advanced, failed := Apply(s, FinishAdvance(w, reply)).rows, Apply(s, FailAdvance(w, reason)).rows;
      && advanced == s.rows[owner := advanced[owner]] && advanced[owner].status == Completed
      && advanced[owner].blob.agents.Keys == snapshot.agents.Keys
      && failed == s.rows[owner := Row(Error, Blob(snapshot.agents, Some(reason)))]
  {
  }

  /** The agents a worker will store, once it writes. */
  predicate WorkerHonest(requested: set<(int, set<string>)>, worker: Worker) {
    match worker
    case Setting(run, items, _) => (run, AgentsOf(items).Keys) in requested
    case Updating(run, agent, _, blob) => (run, blob.agents.Keys) in requested && agent in blob.agents
    case Advancing(run, snapshot) => (run, snapshot.agents.Keys) in requested
  }

  ghost predicate Honest(s: World) {
    && (forall run :: run in s.rows ==> (run, s.rows[run].blob.agents.Keys) in s.requested)
    && (forall w :: w in s.workers ==> WorkerHonest(s.requested, s.workers[w]))
  }

  lemma StepHonest(s: World, step: Step)
    requires Honest(s) && Enabled(s, step)
    ensures Honest(Apply(s, step))
  {
    match step
    case FinishUpdate(w) =>
      var Updating(_, agent, updates, blob) := s.workers[w];
      UpdateKeepsAgents(blob, agent, updates);
    case FinishAdvance(w, reply) => AdvanceKeepsAgents(s.workers[w].snapshot, reply);
    case _ =>
  }

  /** An update of a stored agent, and an advancement under any model reply, keep the ids;
      an advancement touches nothing of an agent but its "advancement" field. */
  lemma UpdateKeepsAgents(blob: Blob, agent: string, updates: Fields)
    requires agent in blob.agents
    ensures UpdateBlob(blob, agent, updates).agents.Keys == blob.agents.Keys
  {
  }

  lemma AdvanceKeepsAgents(blob: Blob, reply: ModelReply)
    ensures AdvanceBlob(blob, reply).agents.Keys == blob.agents.Keys
    ensures forall id, field :: id in blob.agents && field in blob.agents[id] && field != "advancement" ==>
      && field in AdvanceBlob(blob, reply).agents[id]
      && AdvanceBlob(blob, reply).agents[id][field] == blob.agents[id][field]
  {
  }

  lemma {:induction false} RunsStayHonest(steps: seq<Step>)
    requires Exec(steps).Some?
    ensures Honest(Exec(steps).value)
  {
    if steps != [] {
      RunsStayHonest(steps[..|steps| - 1]);
      hide Honest, Enabled;
      StepHonest(Exec(steps[..|steps| - 1]).value, steps[|steps| - 1]);
    }
  }

  lemma {:induction false} RequestedBySomeStep(steps: seq<Step>, run: int, agents: set<string>) returns (i: nat)
    requires Exec(steps).Some? && (run, agents) in Exec(steps).value.requested
    ensures i < |steps| && steps[i].BeginSet? && steps[i].run == run && AgentsOf(steps[i].items).Keys == agents
  {
    var last := |steps| - 1;
    if (run, agents) in Exec(steps[..last]).value.requested {
      i := RequestedBySomeStep(steps[..last], run, agents);
    } else {
      i := last;
    }
  }

  /** Coding agents are never invented or dropped: the agents stored for a run are exactly
      those of some earlier set request for that run, whatever interleaving of sets, updates,
      stale advancements and failures led there and whatever the model replied. */
  lemma StoredAgentsWereRequested(steps: seq<Step>, run: int) returns (i: nat)
    requires Exec(steps).Some? && run in Exec(steps).value.rows
    ensures i < |steps| && steps[i].BeginSet? && steps[i].run == run
    ensures Exec(steps).value.rows[run].blob.agents.Keys == Named(steps[i].items)
  {
    RunsStayHonest(steps);
    i := RequestedBySomeStep(steps, run, Exec(steps).value.rows[run].blob.agents.Keys);
    AgentsAre(steps[i].items);
  }
}
