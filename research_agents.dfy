/**
 * The two literature agents and their shared cache.
 *
 * Both agents key the `future_house_literature` table by the targets sorted
 * and comma-joined, exactly as given (no case folding, no de-duplication).
 * `BasicResearchAgent` asks a language model on a miss and always caches the
 * reply; `FutureHouseAPI` submits one task per target and caches only a
 * completed first response that carries an answer.
 */
module ResearchAgents {
  import opened Wrappers
  import opened Strings
  import opened Sorting
  import opened Caches

  datatype AgentError =
    | NoTargets      // `ValueError("No targets added")`
    | ServiceFailed  // the model or the FutureHouse client raised
    | NoResponse     // `responses[0]` on an empty response list

  // ---------------------------------------------------------------------------
  // The cache key
  // ---------------------------------------------------------------------------

  /** `",".join(sorted(targets))` */
  function OrganismsKey(targets: seq<string>): string {
    Join(",", SortStrings(targets))
  }

  /** The key joins the targets in ascending order, each one as given. */
  lemma OrganismsKeyMeaning(targets: seq<string>)
    ensures var sorted := SortStrings(targets);
      && OrganismsKey(targets) == Join(",", sorted)
      && multiset(sorted) == multiset(targets)
      && Sorted(sorted, LexLe)
  {
    LexLeTotalOrder();
    SortSorted(targets, LexLe);
  }

  /** Listing the same targets in another order gives the same key. */
  lemma OrganismsKeyPermutation(a: seq<string>, b: seq<string>)
    requires multiset(a) == multiset(b)
    ensures OrganismsKey(a) == OrganismsKey(b)
  {
    LexLeTotalOrder();
    SortPermutationInvariant(a, b, LexLe);
  }

  /** For targets without commas the key determines the targets up to order:
      equal keys mean the same targets with the same multiplicities. */
  lemma OrganismsKeyIdentifies(a: seq<string>, b: seq<string>)
    requires a != [] && b != []
    requires forall t :: t in a ==> ',' !in t
    requires forall t :: t in b ==> ',' !in t
    requires OrganismsKey(a) == OrganismsKey(b)
    ensures multiset(a) == multiset(b)
  {
    var sa := SortStrings(a);
    var sb := SortStrings(b);
    SameLength(sa, a);
    SameLength(sb, b);
    assert forall t :: t in sa ==> t in multiset(a);
    assert forall t :: t in sb ==> t in multiset(b);
    SplitJoin(sa, ',');
    SplitJoin(sb, ',');
  }

  /** A single target is its own key, whatever its letter case. */
  lemma OrganismsKeySingle(target: string)
    ensures OrganismsKey([target]) == target
  {
  }

  /** A repeated target is not merged: it appears twice in the key. */
  lemma OrganismsKeyRepeated(target: string)
    ensures OrganismsKey([target, target]) == target + "," + target
  {
    LexLeTotal(target, target);
    assert [target, target][1..] == [target];
    assert Sort([target], LexLe) == [target];
    assert Insert(target, [target], LexLe) == [target, target];
    assert SortStrings([target, target]) == [target, target];
    assert Join(",", [target, target]) == target + "," + Join(",", [target]);
  }

  /** An entry written under one listing of the targets is found under any
      other listing of them, by either agent. */
  lemma SharedEntry(entries: map<string, string>, written: seq<string>, asked: seq<string>, literature: string)
    requires multiset(written) == multiset(asked)
    ensures var stored := entries[OrganismsKey(written) := literature];
      OrganismsKey(asked) in stored && stored[OrganismsKey(asked)] == literature
  {
    OrganismsKeyPermutation(written, asked);
  }

  // ---------------------------------------------------------------------------
  // BasicResearchAgent.run_task
  // ---------------------------------------------------------------------------

  /** `BasicResearchAgent.run_task` against the literature table. The model's reply
      is a function of the targets in the order given (the prompt numbers
      them in that order); `modelCalled` records whether it was consulted. */
  method BasicRunTask(store: LiteratureStore, targets: seq<string>, llm: seq<string> -> Result<string, AgentError>)
    returns (res: Result<string, AgentError>, ghost modelCalled: bool)
    modifies store
    ensures targets == [] ==>
      res == Failure(NoTargets) && !modelCalled && store.entries == old(store.entries)
    ensures targets != [] && OrganismsKey(targets) in old(store.entries) ==>
      && res == Success(old(store.entries)[OrganismsKey(targets)])
      && !modelCalled && store.entries == old(store.entries)
    ensures targets != [] && OrganismsKey(targets) !in old(store.entries) ==>
      && modelCalled && res == llm(targets)
      && store.entries == if res.Success? then old(store.entries)[OrganismsKey(targets) := res.value]
                          else old(store.entries)
  {
    modelCalled := false;
    if |targets| == 0 {
      return Failure(NoTargets), modelCalled;
    }
    var organismsKey := OrganismsKey(targets);
    var cachedEntry := store.GetByOrganisms(organismsKey);
    if cachedEntry.Some? {
      return Success(cachedEntry.value), modelCalled;
    }
    modelCalled := true;
    var response := llm(targets);
    if response.Failure? {
      return response, modelCalled;
    }
    var literatureText := response.value;
    var _ := store.Create(organismsKey, literatureText);
    res := Success(literatureText);
  }

  // ---------------------------------------------------------------------------
  // FutureHouseAPI.run_task
  // ---------------------------------------------------------------------------

  const QueryPrefix: string := "Find documentation useful for crafting protocols to grow the highest yield of "

  /** A FutureHouse task: the job name and the query text. */
  datatype TaskRequest = TaskRequest(name: string, query: string)

  /** What the agent reads of a response: its status, its answer when it has
      one, and its string form. */
  datatype TaskResponse = TaskResponse(status: string, answer: Option<string>, text: string)

  /** The task list: one request per target, in target order. */
  function TaskRequests(fhModel: string, targets: seq<string>): (requests: seq<TaskRequest>)
  {
    seq(|targets|, i requires 0 <= i < |targets| => TaskRequest(fhModel, QueryPrefix + targets[i]))
  }

  /** Each request carries the model name, and its query names exactly the
      target in the same position. */
  lemma TaskRequestsMeaning(fhModel: string, targets: seq<string>)
    ensures |TaskRequests(fhModel, targets)| == |targets|
    ensures forall i :: 0 <= i < |targets| ==>
      && TaskRequests(fhModel, targets)[i].name == fhModel
      && StartsWith(TaskRequests(fhModel, targets)[i].query, QueryPrefix)
      && TaskRequests(fhModel, targets)[i].query[|QueryPrefix|..] == targets[i]
  {
  }

  /** A first response worth caching: completed, with an answer. */
  predicate Answered(r: TaskResponse) {
    r.status == "completed" && r.answer.Some?
  }

  /** What `run_task` returns on a miss, given what the client produced. */
  function FutureHouseResult(responses: Result<seq<TaskResponse>, AgentError>): (res: Result<string, AgentError>)
  {
    match responses
    case Failure(e) => Failure(e)
    case Success(rs) =>
      if rs == [] then Failure(NoResponse)
      else if Answered(rs[0]) then Success(rs[0].answer.value)
      else Success(rs[0].text)
  }

  /** Only the first response counts: the answer when it is completed and
      answered, its string form otherwise; no response is an error. */
  lemma FutureHouseResultMeaning(responses: Result<seq<TaskResponse>, AgentError>)
    ensures FutureHouseResult(responses).Failure? <==> responses.Failure? || responses.value == []
    ensures responses.Success? && responses.value != [] && Answered(responses.value[0]) ==>
      FutureHouseResult(responses) == Success(responses.value[0].answer.value)
    ensures responses.Success? && responses.value != [] && !Answered(responses.value[0]) ==>
      FutureHouseResult(responses) == Success(responses.value[0].text)
    ensures forall rest :: responses.Success? && responses.value != [] ==>
      FutureHouseResult(Success([responses.value[0]] + rest)) == FutureHouseResult(responses)
  {
  }

  /** `FutureHouseAPI.run_task` against the literature table; `clientCalled`
      records whether the tasks were submitted. */
  method FutureHouseRunTask(store: LiteratureStore, fhModel: string, targets: seq<string>,
                            runTasks: seq<TaskRequest> -> Result<seq<TaskResponse>, AgentError>)
    returns (res: Result<string, AgentError>, ghost clientCalled: bool)
    modifies store
    ensures targets == [] ==>
      res == Failure(NoTargets) && !clientCalled && store.entries == old(store.entries)
    ensures targets != [] && OrganismsKey(targets) in old(store.entries) ==>
      && res == Success(old(store.entries)[OrganismsKey(targets)])
      && !clientCalled && store.entries == old(store.entries)
    ensures targets != [] && OrganismsKey(targets) !in old(store.entries) ==>
      var responses := runTasks(TaskRequests(fhModel, targets));
      && clientCalled && res == FutureHouseResult(responses)
      && store.entries == if responses.Success? && responses.value != [] && Answered(responses.value[0])
                          then old(store.entries)[OrganismsKey(targets) := res.value]
                          else old(store.entries)
  {
    clientCalled := false;
    if |targets| == 0 {
      return Failure(NoTargets), clientCalled;
    }
    var organismsKey := OrganismsKey(targets);
    var cachedEntry := store.GetByOrganisms(organismsKey);
    if cachedEntry.Some? {
      return Success(cachedEntry.value), clientCalled;
    }
    var taskRequests := TaskRequests(fhModel, targets);
    clientCalled := true;
    var responses := runTasks(taskRequests);
    if responses.Failure? {
      return Failure(responses.error), clientCalled;
    }
    if |responses.value| == 0 {
      return Failure(NoResponse), clientCalled;
    }
    var first := responses.value[0];
    if first.status == "completed" && first.answer.Some? {
      var literatureText := first.answer.value;
      var _ := store.Create(organismsKey, literatureText);
      return Success(literatureText), clientCalled;
    }
    res := Success(first.text);
  }
}
