/** `run_agent_analysis` and `analyze_medical_report` of `streamlit_app.py`:
    six specialist tasks fan out over one report, their results are collected
    as they complete, and a team agent synthesises the collected reports.
    The thread pool is modelled by the order in which results complete, any
    permutation of the submitted tasks. */
module Analysis {
  import opened PyValues
  import opened PyStrings
  import opened PyDict
  import opened Agents

  /** The `(name, response, status)` triple `run_agent_analysis` returns. */
  datatype AgentResult = AgentResult(name: string, response: Option<string>, status: string)

  const Success: string := "success"
  const Error: string := "error"
  const AnalysisFailedPrefix: string := "Analysis failed: "
  const TeamFailedPrefix: string := "Team analysis failed: "

  /** The values of `agent_status`. */
  const Waiting: string := "\U{23F3} Waiting..."
  const Complete: string := "\U{2705} Complete!"
  const Failed: string := "\U{274C} Failed"

  const SpecialistEmojis: seq<string> :=
    ["\U{1FAC0}", "\U{1F9E0}", "\U{1FAC1}", "\U{1F9EC}", "\U{1FA7A}", "\U{2695}\U{FE0F}"]

  /** The keys of `agents`, in order: an emoji, a space, the role. */
  const SpecialistLabels: seq<string> := [
    SpecialistEmojis[0] + " " + SpecialistRoles[0],
    SpecialistEmojis[1] + " " + SpecialistRoles[1],
    SpecialistEmojis[2] + " " + SpecialistRoles[2],
    SpecialistEmojis[3] + " " + SpecialistRoles[3],
    SpecialistEmojis[4] + " " + SpecialistRoles[4],
    SpecialistEmojis[5] + " " + SpecialistRoles[5]
  ]

  /** `run_agent_analysis`, given what `agent.run()` did: its value is passed
      on with status `"success"`; an exception becomes an `"error"` result
      whose response carries the exception's text. It never raises. */
  function RunAgentAnalysis(agentName: string, run: Call<Option<string>>): (r: AgentResult)
    ensures r.name == agentName
    ensures r.status == Success <==> run.Returned?
    ensures r.status == Success || r.status == Error
    ensures run.Returned? ==> r.response == run.value
    ensures run.Raised? ==> r.response == Some(AnalysisFailedPrefix + Str(run.exception))
  {
    match run
    case Returned(response) => AgentResult(agentName, response, Success)
    case Raised(e) => AgentResult(agentName, Some(AnalysisFailedPrefix + Str(e)), Error)
  }

  /** The `agents` dict: each label bound to its specialist, all on the same report. */
  function CreateAgents(medicalReport: string): (agents: Dict<Agent>)
    ensures Keys(agents) == SpecialistLabels
    ensures forall i :: 0 <= i < |agents| ==>
      && agents[i].1.role == Some(SpecialistRoles[i])
      && agents[i].1.medicalReport == Some(medicalReport)
      && agents[i].1.promptTemplate == SpecialistTemplates[SpecialistRoles[i]]
  {
    var report := Some(medicalReport);
    [
      (SpecialistLabels[0], Cardiologist(report).value),
      (SpecialistLabels[1], Psychologist(report).value),
      (SpecialistLabels[2], Pulmonologist(report).value),
      (SpecialistLabels[3], Neurologist(report).value),
      (SpecialistLabels[4], Dermatologist(report).value),
      (SpecialistLabels[5], Endocrinologist(report).value)
    ]
  }

  /** The results of the submitted tasks, in submission order. Inside the
      model `agent.run()` always returns (a failed model call is already
      `None`), so every task takes the `"success"` branch. */
  function TaskResults(agents: Dict<Agent>, invoke: Oracle): (results: seq<AgentResult>)
    ensures |results| == |agents|
    ensures forall i :: 0 <= i < |agents| ==>
      && results[i].name == agents[i].0
      && results[i].status == Success
      && results[i].response == Run(agents[i].1, invoke)
  {
    seq(|agents|, i requires 0 <= i < |agents| => RunAgentAnalysis(agents[i].0, Returned(Run(agents[i].1, invoke))))
  }

  /** `order` lists every index below `n` exactly once. */
  predicate IsPermutation(order: seq<nat>, n: nat) {
    && |order| == n
    && (forall k :: 0 <= k < n ==> order[k] < n)
    && (forall j :: 0 <= j < n ==> j in order)
    && Distinct(order)
  }

  /** The results in the order `as_completed` yields them. */
  function Reorder<T>(s: seq<T>, order: seq<nat>): (r: seq<T>)
    requires forall k :: 0 <= k < |order| ==> order[k] < |s|
    ensures |r| == |order|
  {
    seq(|order|, k requires 0 <= k < |order| => s[order[k]])
  }

  function Names(ts: seq<AgentResult>): (names: seq<string>)
    ensures |names| == |ts|
    ensures forall i :: 0 <= i < |ts| ==> names[i] == ts[i].name
  {
    seq(|ts|, i requires 0 <= i < |ts| => ts[i].name)
  }

  function StatusLabel(status: string): string {
    if status == Success then Complete else Failed
  }

  /** The assignments `responses[agent_name] = response` of the completions, in order. */
  function ResponsePairs(ts: seq<AgentResult>): (ps: Dict<Option<string>>)
    ensures Keys(ps) == Names(ts)
  {
    seq(|ts|, i requires 0 <= i < |ts| => (ts[i].name, ts[i].response))
  }

  /** The assignments to `agent_status` of the completions, in order. */
  function StatusPairs(ts: seq<AgentResult>): (ps: Dict<string>)
    ensures Keys(ps) == Names(ts)
  {
    seq(|ts|, i requires 0 <= i < |ts| => (ts[i].name, StatusLabel(ts[i].status)))
  }

  /** `{name: "⏳ Waiting..." for name in agents.keys()}`. */
  function InitialStatus(names: seq<string>): Dict<string> {
    PutAll([], seq(|names|, i requires 0 <= i < |names| => (names[i], Waiting)))
  }

  /** One more completion is one more assignment to each dict. */
  lemma CollectStep(agentNames: seq<string>, ts: seq<AgentResult>, i: nat)
    requires i < |ts|
    ensures PutAll([], ResponsePairs(ts[..i + 1]))
      == Put(PutAll([], ResponsePairs(ts[..i])), ts[i].name, ts[i].response)
    ensures PutAll(InitialStatus(agentNames), StatusPairs(ts[..i + 1]))
      == Put(PutAll(InitialStatus(agentNames), StatusPairs(ts[..i])), ts[i].name, StatusLabel(ts[i].status))
  {
    assert ResponsePairs(ts[..i + 1]) == ResponsePairs(ts[..i]) + [(ts[i].name, ts[i].response)];
    assert StatusPairs(ts[..i + 1]) == StatusPairs(ts[..i]) + [(ts[i].name, StatusLabel(ts[i].status))];
    PutAllSnoc([], ResponsePairs(ts[..i]), ts[i].name, ts[i].response);
    PutAllSnoc(InitialStatus(agentNames), StatusPairs(ts[..i]), ts[i].name, StatusLabel(ts[i].status));
  }

  /** The `as_completed` loop: fills `responses`, counts completions and
      updates `agent_status`, one completed result at a time. The result is
      every completion's assignments made in completion order. */
  method CollectResults(agentNames: seq<string>, completions: seq<AgentResult>)
    returns (responses: Dict<Option<string>>, completedCount: nat, agentStatus: Dict<string>)
    ensures responses == PutAll([], ResponsePairs(completions))
    ensures completedCount == |completions|
    ensures agentStatus == PutAll(InitialStatus(agentNames), StatusPairs(completions))
  {
    agentStatus := InitialStatus(agentNames);
    responses := [];
    completedCount := 0;
    var i := 0;
    while i < |completions|
      invariant i <= |completions|
      invariant responses == PutAll([], ResponsePairs(completions[..i]))
      invariant completedCount == i
      invariant agentStatus == PutAll(InitialStatus(agentNames), StatusPairs(completions[..i]))
    {
      var result := completions[i];
      responses := Put(responses, result.name, result.response);
      completedCount := completedCount + 1;
      agentStatus := Put(agentStatus, result.name, StatusLabel(result.status));
      CollectStep(agentNames, completions, i);
      i := i + 1;
    }
    assert completions[..i] == completions;
  }

  /** A permutation of the results keeps their names distinct. */
  lemma ReorderKeepsNamesDistinct(results: seq<AgentResult>, order: seq<nat>)
    requires Distinct(Names(results)) && IsPermutation(order, |results|)
    ensures Distinct(Names(Reorder(results, order)))
  {
    var ts := Reorder(results, order);
    forall a, b | 0 <= a < b < |ts| ensures Names(ts)[a] != Names(ts)[b] {
      assert order[a] != order[b];
      assert Names(results)[order[a]] != Names(results)[order[b]];
    }
  }

  /** Every result completes somewhere in a permutation. */
  lemma CompletesSomewhere(results: seq<AgentResult>, order: seq<nat>, j: nat)
    requires IsPermutation(order, |results|) && j < |results|
    ensures exists m :: 0 <= m < |order| && order[m] == j && Reorder(results, order)[m] == results[j]
  {
    assert j in order;
    var m :| 0 <= m < |order| && order[m] == j;
    assert Reorder(results, order)[m] == results[j];
  }

  /** A permutation of the results brings no new name. */
  lemma ReorderAddsNoName(results: seq<AgentResult>, order: seq<nat>, k: string)
    requires IsPermutation(order, |results|) && k !in Names(results)
    ensures k !in Names(Reorder(results, order))
  {
    var ts := Reorder(results, order);
    forall m | 0 <= m < |ts| ensures Names(ts)[m] != k {
      assert ts[m] == results[order[m]];
      assert Names(results)[order[m]] == ts[m].name;
    }
  }

  /** The waiting statuses list every agent, in order, as waiting. */
  lemma InitialStatusShape(names: seq<string>)
    requires Distinct(names)
    ensures InitialStatus(names) == seq(|names|, i requires 0 <= i < |names| => (names[i], Waiting))
    ensures Keys(InitialStatus(names)) == names
  {
    var ps := seq(|names|, i requires 0 <= i < |names| => (names[i], Waiting));
    assert Keys(ps) == names;
    PutAllFresh([], ps);
  }

  /** After the loop, whatever the completion order: `responses` has one
      entry per agent, in completion order, and as a map it is the same as
      the results taken in submission order. */
  lemma {:induction false} CollectedResponses(results: seq<AgentResult>, order: seq<nat>)
    requires Distinct(Names(results)) && IsPermutation(order, |results|)
    ensures
      var ts := Reorder(results, order);
      && PutAll([], ResponsePairs(ts)) == ResponsePairs(ts)
      && ToMap(ResponsePairs(ts)) == ToMap(ResponsePairs(results))
  {
    var ts := Reorder(results, order);
    var rs, canon := ResponsePairs(ts), ResponsePairs(results);
    ReorderKeepsNamesDistinct(results, order);
    PutAllFresh([], rs);
    forall k ensures Get(rs, k) == Get(canon, k) {
      if j :| 0 <= j < |results| && results[j].name == k {
        CompletesSomewhere(results, order, j);
        var m :| 0 <= m < |order| && order[m] == j && ts[m] == results[j];
        GetAt(rs, m);
        GetAt(canon, j);
      } else {
        ReorderAddsNoName(results, order, k);
      }
    }
    SameGetsSameMap(rs, canon);
  }

  /** The status a result leaves behind, whatever the completion order. */
  lemma FinalStatusOf(results: seq<AgentResult>, order: seq<nat>, j: nat)
    requires Distinct(Names(results)) && IsPermutation(order, |results|) && j < |results|
    ensures Get(PutAll(InitialStatus(Names(results)), StatusPairs(Reorder(results, order))), results[j].name)
      == Some(StatusLabel(results[j].status))
  {
    var ts := Reorder(results, order);
    var ss := StatusPairs(ts);
    ReorderKeepsNamesDistinct(results, order);
    PutAllGet(InitialStatus(Names(results)), ss);
    CompletesSomewhere(results, order, j);
    var m :| 0 <= m < |order| && order[m] == j && ts[m] == results[j];
    assert ss[m] == (results[j].name, StatusLabel(results[j].status));
  }

  /** The loop only reassigns agents that are already listed, so the
      statuses keep the submission order. */
  lemma FinalStatusKeys(results: seq<AgentResult>, order: seq<nat>)
    requires Distinct(Names(results)) && IsPermutation(order, |results|)
    ensures Keys(PutAll(InitialStatus(Names(results)), StatusPairs(Reorder(results, order)))) == Names(results)
  {
    var names := Names(results);
    var ss := StatusPairs(Reorder(results, order));
    InitialStatusShape(names);
    forall m | 0 <= m < |ss| ensures ss[m].0 in Keys(InitialStatus(names)) {
      assert ss[m].0 == names[order[m]];
    }
    PutAllPresentKeys(InitialStatus(names), ss);
  }

  /** A name that is no agent's has no status. */
  lemma FinalStatusOutside(results: seq<AgentResult>, order: seq<nat>, k: string)
    requires Distinct(Names(results)) && IsPermutation(order, |results|) && k !in Names(results)
    ensures Get(PutAll(InitialStatus(Names(results)), StatusPairs(Reorder(results, order))), k) == None
  {
    FinalStatusKeys(results, order);
  }

  /** After the loop, whatever the completion order, `agent_status` lists
      every agent in submission order with "Complete!" exactly when its
      result was `"success"` and "Failed" otherwise: none is left waiting. */
  lemma {:induction false} CollectedStatuses(results: seq<AgentResult>, order: seq<nat>)
    requires Distinct(Names(results)) && IsPermutation(order, |results|)
    ensures PutAll(InitialStatus(Names(results)), StatusPairs(Reorder(results, order))) == StatusPairs(results)
  {
    var final := PutAll(InitialStatus(Names(results)), StatusPairs(Reorder(results, order)));
    var canon := StatusPairs(results);
    FinalStatusKeys(results, order);
    forall k ensures Get(final, k) == Get(canon, k) {
      FinalStatusGet(results, order, k);
    }
    SameKeysSameGets(final, canon);
  }

  lemma FinalStatusGet(results: seq<AgentResult>, order: seq<nat>, k: string)
    requires Distinct(Names(results)) && IsPermutation(order, |results|)
    ensures Get(PutAll(InitialStatus(Names(results)), StatusPairs(Reorder(results, order))), k)
      == Get(StatusPairs(results), k)
  {
    if j :| 0 <= j < |results| && results[j].name == k {
      FinalStatusOf(results, order, j);
      GetAt(StatusPairs(results), j);
    } else {
      FinalStatusOutside(results, order, k);
    }
  }

  /** `name.split()[-1]`. */
  function CleanName(name: string): (r: Call<string>)
    ensures r.Returned? <==> Split(name) != []
    ensures r.Returned? ==> r.value == Split(name)[|Split(name)| - 1]
    ensures r.Raised? ==> r.exception == IndexError(IndexOutOfRange)
  {
    var words := Split(name);
    if words == [] then Raised(IndexError(IndexOutOfRange)) else Returned(words[|words| - 1])
  }

  /** Every key of `d` has a word, so `name.split()[-1]` succeeds on it. */
  predicate AllNamesClean<V>(d: Dict<V>) {
    forall i :: 0 <= i < |d| ==> Split(d[i].0) != []
  }

  lemma AllNamesCleanInit<V>(d: Dict<V>)
    requires d != []
    ensures AllNamesClean(d) <==> AllNamesClean(d[..|d| - 1]) && Split(d[|d| - 1].0) != []
  {
    assert forall i :: 0 <= i < |d| - 1 ==> d[..|d| - 1][i] == d[i];
  }

  /** The `clean_responses` comprehension, entry by entry in dict order: it
      raises `IndexError` exactly when some key has no word. */
  function CleanResponses<V>(responses: Dict<V>): (r: Call<Dict<V>>)
    ensures r.Returned? <==> AllNamesClean(responses)
    ensures r.Raised? ==> r.exception == IndexError(IndexOutOfRange)
    decreases |responses|
  {
    if responses == [] then Returned([])
    else
      var last := responses[|responses| - 1];
      AllNamesCleanInit(responses);
      var clean :- CleanResponses(responses[..|responses| - 1]);
      var key :- CleanName(last.0);
      Returned(Put(clean, key, last.1))
  }

  /** Each entry with its cleaned key. */
  function CleanPairs<V>(responses: Dict<V>): Dict<V>
    requires AllNamesClean(responses)
  {
    seq(|responses|, i requires 0 <= i < |responses| => (CleanName(responses[i].0).value, responses[i].1))
  }

  /** When every key cleans, the comprehension assigns each cleaned entry in turn. */
  lemma {:induction false} CleanResponsesPutsEach<V>(responses: Dict<V>)
    requires AllNamesClean(responses)
    ensures CleanResponses(responses) == Returned(PutAll([], CleanPairs(responses)))
  {
    if responses != [] {
      var init := responses[..|responses| - 1];
      CleanResponsesPutsEach(init);
      assert CleanPairs(responses)[..|responses| - 1] == CleanPairs(init);
    }
  }

  /** Each label cleans to its role: the emoji and the role are one word each. */
  lemma LabelCleansToRole(i: nat)
    requires i < 6
    ensures CleanName(SpecialistLabels[i]) == Returned(SpecialistRoles[i])
  {
    var emoji, role := SpecialistEmojis[i], SpecialistRoles[i];
    assert emoji != [] && NoSpace(emoji) && role != [] && NoSpace(role) by {
      LabelWordsHaveNoSpace(i);
    }
    assert SpecialistLabels[i] == emoji + " " + role;
    LastOfTwoWords(emoji, role);
  }

  lemma LabelWordsHaveNoSpace(i: nat)
    requires i < 6
    ensures SpecialistEmojis[i] != [] && NoSpace(SpecialistEmojis[i])
    ensures SpecialistRoles[i] != [] && NoSpace(SpecialistRoles[i])
  {
  }

  /** The last word of two words joined by a space is the second. */
  lemma LastOfTwoWords(a: string, b: string)
    requires a != [] && NoSpace(a) && b != [] && NoSpace(b)
    ensures CleanName(a + " " + b) == Returned(b)
  {
    var words := [a, b];
    assert IsWordList(words);
    assert Join(words) == a + " " + b;
    SplitJoin(words);
  }

  lemma RolesDistinct()
    ensures Distinct(SpecialistRoles)
  {
  }

  /** The six labels are distinct, since their roles are. */
  lemma LabelsDistinct()
    ensures Distinct(SpecialistLabels)
  {
    RolesDistinct();
    forall a, b | 0 <= a < b < 6 ensures SpecialistLabels[a] != SpecialistLabels[b] {
      LabelCleansToRole(a);
      LabelCleansToRole(b);
    }
  }

  /** `d[key]`: `KeyError` when the key is missing. */
  function Lookup<V>(d: Dict<V>, key: string): (r: Call<V>)
    ensures r.Returned? <==> key in Keys(d)
    ensures r.Returned? ==> Get(d, key) == Some(r.value)
    ensures r.Raised? ==> r.exception == KeyError(key)
  {
    match Get(d, key)
    case Some(v) => Returned(v)
    case None => Raised(KeyError(key))
  }

  /** The six `clean_responses[...]` lookups that feed the team agent, in role order. */
  function LookupReports(clean: Dict<Option<string>>): (r: Call<seq<Option<string>>>)
    ensures r.Returned? <==> forall k :: 0 <= k < 6 ==> SpecialistRoles[k] in Keys(clean)
    ensures r.Returned? ==> |r.value| == 6
    ensures r.Returned? ==> forall k :: 0 <= k < 6 ==> Get(clean, SpecialistRoles[k]) == Some(r.value[k])
    ensures r.Raised? ==>
      exists k :: (0 <= k < 6 && r.exception == KeyError(SpecialistRoles[k])
        && SpecialistRoles[k] !in Keys(clean)
        && forall j :: 0 <= j < k ==> SpecialistRoles[j] in Keys(clean))
  {
    var cardiologist :- Lookup(clean, SpecialistRoles[0]);
    var psychologist :- Lookup(clean, SpecialistRoles[1]);
    var pulmonologist :- Lookup(clean, SpecialistRoles[2]);
    var neurologist :- Lookup(clean, SpecialistRoles[3]);
    var dermatologist :- Lookup(clean, SpecialistRoles[4]);
    var endocrinologist :- Lookup(clean, SpecialistRoles[5]);
    Returned([cardiologist, psychologist, pulmonologist, neurologist, dermatologist, endocrinologist])
  }

  /** The body of the `try` at the end of `analyze_medical_report`: clean the
      names, look up the six roles, build the team agent and run it. */
  function TeamAnalysis(responses: Dict<Option<string>>, invoke: Oracle): (r: Call<Option<string>>)
    ensures r.Raised? && r.exception.IndexError? <==> !AllNamesClean(responses)
    ensures r.Raised? ==> r.exception == IndexError(IndexOutOfRange) || r.exception.KeyError?
    ensures r.Raised? && r.exception.KeyError? ==> r.exception.key in SpecialistRoles
    ensures r.Returned? <==>
      && AllNamesClean(responses)
      && forall k :: 0 <= k < 6 ==> SpecialistRoles[k] in Keys(CleanResponses(responses).value)
  {
    var clean :- CleanResponses(responses);
    var reports :- LookupReports(clean);
    // The team role is always known, so building the team agent never raises.
    var teamAgent := MultidisciplinaryTeam(reports[0], reports[1], reports[2], reports[3], reports[4], reports[5]).value;
    Returned(Run(teamAgent, invoke))
  }

  /** The diagnosis `analyze_medical_report` returns: the team's answer, or
      the `except` branch's message when the gather step raised. */
  function FinalDiagnosis(responses: Dict<Option<string>>, invoke: Oracle): (d: Option<string>)
    ensures TeamAnalysis(responses, invoke).Returned? ==> d == TeamAnalysis(responses, invoke).value
    ensures TeamAnalysis(responses, invoke).Raised? ==>
      && d.Some?
      && |TeamFailedPrefix| <= |d.value|
      && d.value[..|TeamFailedPrefix|] == TeamFailedPrefix
      && d.value[|TeamFailedPrefix|..] == Str(TeamAnalysis(responses, invoke).exception)
  {
    match TeamAnalysis(responses, invoke)
    case Returned(diagnosis) => diagnosis
    case Raised(e) => Some(TeamFailedPrefix + Str(e))
  }

  /** The team agent built from six reports, in role order. */
  function TeamAgentFor(reports: seq<Option<string>>): Agent
    requires |reports| == 6
  {
    MultidisciplinaryTeam(reports[0], reports[1], reports[2], reports[3], reports[4], reports[5]).value
  }

  /** The specialists' responses, in submission order. */
  function Reports(results: seq<AgentResult>): seq<Option<string>> {
    seq(|results|, j requires 0 <= j < |results| => results[j].response)
  }

  /** The collected responses keyed by role instead of label, still in completion order. */
  function CleanedCollection(results: seq<AgentResult>, order: seq<nat>): (d: Dict<Option<string>>)
    requires |results| == 6 && IsPermutation(order, 6)
  {
    seq(6, m requires 0 <= m < 6 => (SpecialistRoles[order[m]], results[order[m]].response))
  }

  /** Each collected label has a word, and its last word is its role. */
  lemma {:induction false} CollectedLabelsClean(results: seq<AgentResult>, order: seq<nat>)
    requires Names(results) == SpecialistLabels && IsPermutation(order, 6)
    ensures AllNamesClean(ResponsePairs(Reorder(results, order)))
    ensures CleanPairs(ResponsePairs(Reorder(results, order))) == CleanedCollection(results, order)
  {
    var responses := ResponsePairs(Reorder(results, order));
    forall m | 0 <= m < 6 ensures CleanName(responses[m].0) == Returned(SpecialistRoles[order[m]]) {
      assert responses[m].0 == SpecialistLabels[order[m]];
      LabelCleansToRole(order[m]);
    }
  }

  /** Cleaning the collected labels never raises: it rekeys each entry by its role. */
  lemma {:induction false} CleanedCollectionIs(results: seq<AgentResult>, order: seq<nat>)
    requires Names(results) == SpecialistLabels && IsPermutation(order, 6)
    ensures CleanResponses(ResponsePairs(Reorder(results, order))) == Returned(CleanedCollection(results, order))
  {
    var responses := ResponsePairs(Reorder(results, order));
    var ps := CleanedCollection(results, order);
    CollectedLabelsClean(results, order);
    CleanResponsesPutsEach(responses);
    assert CleanResponses(responses) == Returned(PutAll([], ps));
    CleanedKeysDistinct(order, ps);
    PutAllFresh([], ps);
    assert [] + ps == ps;
  }

  /** The cleaned keys are the roles in completion order, so they are distinct. */
  lemma CleanedKeysDistinct(order: seq<nat>, ps: Dict<Option<string>>)
    requires IsPermutation(order, 6) && |ps| == 6
    requires forall m :: 0 <= m < 6 ==> ps[m].0 == SpecialistRoles[order[m]]
    ensures Distinct(Keys(ps))
  {
    RolesDistinct();
    forall a, b | 0 <= a < b < 6 ensures Keys(ps)[a] != Keys(ps)[b] {
      assert order[a] != order[b];
    }
  }

  /** Every role is found in the cleaned collection with its own specialist's response. */
  lemma {:induction false} CleanedLookups(results: seq<AgentResult>, order: seq<nat>, j: nat)
    requires Names(results) == SpecialistLabels && IsPermutation(order, 6) && j < 6
    ensures Lookup(CleanedCollection(results, order), SpecialistRoles[j]) == Returned(results[j].response)
  {
    var ps := CleanedCollection(results, order);
    CleanedKeysDistinct(order, ps);
    assert j in order;
    var m :| 0 <= m < 6 && order[m] == j;
    assert ps[m] == (SpecialistRoles[j], results[j].response);
    GetAt(ps, m);
  }

  /** The six lookups never miss: the team agent gets each specialist's
      response, whatever it is (a failed specialist's "Analysis failed: ..."
      text included), whatever the completion order. */
  lemma {:induction false} GatherFindsEveryReport(results: seq<AgentResult>, order: seq<nat>, invoke: Oracle)
    requires Names(results) == SpecialistLabels && IsPermutation(order, 6)
    ensures TeamAnalysis(ResponsePairs(Reorder(results, order)), invoke)
      == Returned(Run(TeamAgentFor(Reports(results)), invoke))
  {
    CleanedCollectionIs(results, order);
    CleanedLookups(results, order, 0);
    CleanedLookups(results, order, 1);
    CleanedLookups(results, order, 2);
    CleanedLookups(results, order, 3);
    CleanedLookups(results, order, 4);
    CleanedLookups(results, order, 5);
  }

  /** A lookup that misses ends the team analysis with its exception. */
  lemma TeamAnalysisFailsOnLookup(responses: Dict<Option<string>>, invoke: Oracle, clean: Dict<Option<string>>)
    requires CleanResponses(responses) == Returned(clean)
    requires LookupReports(clean).Raised?
    ensures TeamAnalysis(responses, invoke) == Raised(LookupReports(clean).exception)
  {
  }

  /** Without an entry cleaning to "Cardiologist" the first lookup raises
      `KeyError`, the `except` branch catches it, and the diagnosis says so. */
  lemma MissingCardiologistFailsTeam(responses: Dict<Option<string>>, invoke: Oracle)
    requires AllNamesClean(responses)
    requires forall i :: 0 <= i < |responses| ==> CleanName(responses[i].0).value != "Cardiologist"
    ensures FinalDiagnosis(responses, invoke) == Some(TeamFailedPrefix + Str(KeyError("Cardiologist")))
  {
    CleanResponsesPutsEach(responses);
    var ps := CleanPairs(responses);
    var clean := PutAll([], ps);
    assert "Cardiologist" !in Keys(ps);
    PutAllUntouched([], ps, "Cardiologist");
    assert CleanResponses(responses) == Returned(clean);
    assert Lookup(clean, "Cardiologist") == Raised(KeyError("Cardiologist"));
    assert LookupReports(clean) == Raised(KeyError("Cardiologist"));
    TeamAnalysisFailsOnLookup(responses, invoke, clean);
  }

  /** In submission order, each agent's final status is "Complete!" exactly
      for a `"success"` result and "Failed" otherwise; no agent is waiting. */
  lemma StatusPairsAreFinal(results: seq<AgentResult>)
    requires Distinct(Names(results))
    ensures forall j :: 0 <= j < |results| ==>
      Get(StatusPairs(results), results[j].name) == Some(if results[j].status == Success then Complete else Failed)
    ensures forall k :: Get(StatusPairs(results), k) != Some(Waiting)
  {
    var canon := StatusPairs(results);
    forall j | 0 <= j < |results|
      ensures Get(canon, results[j].name) == Some(if results[j].status == Success then Complete else Failed)
    {
      GetAt(canon, j);
    }
    forall k ensures Get(canon, k) != Some(Waiting) {
      if j :| 0 <= j < |results| && results[j].name == k {
        GetAt(canon, j);
      }
    }
  }

  /** After the loop: the counter equals the number of agents, the keys of
      `responses` are exactly the agents' names, and every agent's status is
      final, "Complete!" exactly for a `"success"` result. */
  lemma {:induction false} CollectionCoversAgents(results: seq<AgentResult>, order: seq<nat>)
    requires Distinct(Names(results)) && IsPermutation(order, |results|)
    ensures
      var ts := Reorder(results, order);
      var statuses := PutAll(InitialStatus(Names(results)), StatusPairs(ts));
      && |ts| == |results|
      && (forall k :: k in ToMap(PutAll([], ResponsePairs(ts))) <==> k in Names(results))
      && (forall j :: 0 <= j < |results| ==>
            Get(statuses, results[j].name) == Some(if results[j].status == Success then Complete else Failed))
      && (forall k :: Get(statuses, k) != Some(Waiting))
  {
    CollectedResponses(results, order);
    assert Keys(ResponsePairs(results)) == Names(results);
    CollectedStatuses(results, order);
    StatusPairsAreFinal(results);
  }

  /** Whatever order the specialists finish in, the collected responses are
      the same map and the diagnosis is the same: the team sees every
      specialist's response in role order, a failed one's text included. */
  lemma {:induction false} AnalysisIsOrderIndependent(results: seq<AgentResult>, order1: seq<nat>, order2: seq<nat>, invoke: Oracle)
    requires Names(results) == SpecialistLabels
    requires IsPermutation(order1, 6) && IsPermutation(order2, 6)
    ensures ToMap(ResponsePairs(Reorder(results, order1))) == ToMap(ResponsePairs(Reorder(results, order2)))
    ensures FinalDiagnosis(ResponsePairs(Reorder(results, order1)), invoke)
      == FinalDiagnosis(ResponsePairs(Reorder(results, order2)), invoke)
      == Run(TeamAgentFor(Reports(results)), invoke)
  {
    LabelsDistinct();
    CollectedResponses(results, order1);
    CollectedResponses(results, order2);
    GatherFindsEveryReport(results, order1, invoke);
    GatherFindsEveryReport(results, order2, invoke);
  }

  /** The submitted tasks' results carry the six labels in order. */
  lemma TaskResultsNames(medicalReport: string, invoke: Oracle)
    ensures Names(TaskResults(CreateAgents(medicalReport), invoke)) == SpecialistLabels
  {
    var agents := CreateAgents(medicalReport);
    var results := TaskResults(agents, invoke);
    forall i | 0 <= i < 6 ensures Names(results)[i] == SpecialistLabels[i] {
      assert Keys(agents)[i] == agents[i].0;
    }
  }

  /** The whole of `analyze_medical_report` for one completion order: the
      responses dict after the loop, in completion order, and the diagnosis,
      which is the team's answer on the six responses in role order. */
  method AnalyzeMedicalReport(medicalReport: string, invoke: Oracle, order: seq<nat>)
    returns (responses: Dict<Option<string>>, finalDiagnosis: Option<string>)
    requires IsPermutation(order, 6)
    ensures
      var results := TaskResults(CreateAgents(medicalReport), invoke);
      && responses == ResponsePairs(Reorder(results, order))
      && ToMap(responses) == ToMap(ResponsePairs(results))
      && finalDiagnosis == Run(TeamAgentFor(Reports(results)), invoke)
  {
    var agents := CreateAgents(medicalReport);
    var results := TaskResults(agents, invoke);
    var completions := Reorder(results, order);
    var completedCount, agentStatus;
    responses, completedCount, agentStatus := CollectResults(Keys(agents), completions);
    TaskResultsNames(medicalReport, invoke);
    LabelsDistinct();
    CollectedResponses(results, order);
    finalDiagnosis := FinalDiagnosis(responses, invoke);
    GatherFindsEveryReport(results, order, invoke);
  }

  /** A specialist whose model call fails is still reported as a success with
      no response: `run` turns the failure into `None` before
      `run_agent_analysis` can see it, so "❌ Failed" is never shown for it. */
  lemma FailedCallIsReportedAsSuccess(medicalReport: string, invoke: Oracle, i: nat)
    requires i < 6
    requires invoke(Prompt(CreateAgents(medicalReport)[i].1)).Fails?
    ensures TaskResults(CreateAgents(medicalReport), invoke)[i] == AgentResult(SpecialistLabels[i], None, Success)
    ensures StatusLabel(TaskResults(CreateAgents(medicalReport), invoke)[i].status) == Complete
  {
    assert Keys(CreateAgents(medicalReport))[i] == SpecialistLabels[i];
  }
}
