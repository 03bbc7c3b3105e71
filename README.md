# Medical diagnostics agents — a Dafny model

This project models the deterministic core of *AI-Agents-for-Medical-Diagnostics*. In that application, a patient's medical report goes to six specialist agents:
- Cardiologist, Psychologist, Pulmonologist, Neurologist, Dermatologist and Endocrinologist.

Each agent builds a prompt from its role's template and asks a chat model for an opinion. The application runs the six requests in a thread pool and collects their answers as they complete. It then cleans the emoji labels back to role names and hands the six reports to a `MultidisciplinaryTeam` agent, which writes the final diagnosis. After the analysis, the UI shows a word-count summary per specialist and can export everything as a text report.

The model has one module per layer:
- `PyValues`: the Python values the core passes around.
  - `None`-or-`str` values.
  - `str()` of values and exceptions.
  - Calls that return or raise, usable with `:-`.
- `PyStrings`: `str.split()`, `" ".join` and `"".join`.
- `PyDict`: a Python `dict` as its entries in insertion order.
  - `d[k] = v` keeps an existing key in place and appends a new one.
- `Agents`: `Utils/Agents.py`.
  - Role-to-template dispatch, the `ValueError` for unknown roles, the specialist classes and the team agent.
  - `run`: the chat model is an oracle from prompt to reply or failure.
- `Analysis`: `run_agent_analysis` and `analyze_medical_report`.
  - The thread pool becomes an arbitrary permutation `order` of completion events.
  - `CollectResults` is the imperative collection loop, proved against `PutAll` over the completions.
  - `TeamAnalysis`/`FinalDiagnosis` model the `try`/`except` gather step.
- `Report`: the `create_analysis_summary` loop and the "Export as TXT" loop.

The main results:
- The collected `responses` map does not depend on the completion order.
- Every agent ends "✅ Complete!" or "❌ Failed", never "⏳ Waiting...".
- Cleaning turns the six labels into the six role names, so the team's six lookups never miss. The team therefore sees each specialist's response, whatever the order.
- The export contains every specialist's section, in dictionary order, with the response written out verbatim.

A failed specialist is not replaced by a placeholder: the team receives whatever the specialist returned:
  - `None` when the model call failed, which the team prompt writes as `None`;
  - the `Analysis failed: ...` text when `agent.run()` raised.
- `Agent.run` already turns a failed model call into `None`. So in the real pipeline the `"error"` status, and with it "❌ Failed", arises only from exceptions raised outside the model call (`FailedCallIsReportedAsSuccess`).

## Model

| member | source | states |
|---|---|---|
| Agents.CreatePromptTemplate | AI-Agents-for-Medical-Diagnostics/Utils/Agents.py:14-88 | Returns a template exactly when the role is one of the seven known roles, otherwise raises `ValueError("Unknown role: <role>")` (also for `None`). The team role gets the team text built from `extra_info`; a specialist role gets its own table entry. |
| Agents.NewAgent | AI-Agents-for-Medical-Diagnostics/Utils/Agents.py:5-10 | Construction succeeds exactly for a known role and raises the same `ValueError` otherwise. The agent keeps the report and the role. `extra_info` is the given dict, or `{}` when none is given. |
| Agents.Run | AI-Agents-for-Medical-Diagnostics/Utils/Agents.py:90-98 | Returns the reply's content exactly when the model call succeeds and `None` when it fails; it never raises. |
| Agents.TeamPromptLayout | AI-Agents-for-Medical-Diagnostics/Utils/Agents.py:17-31 | For any `extra_info`, the team prompt is the instructions followed by the six report lines in template order; line i is the i-th specialist's label, " Report: ", then `str` of its report, or nothing when the key is absent, then a newline. |
| Agents.Cardiologist | AI-Agents-for-Medical-Diagnostics/Utils/Agents.py:101-103 | Always builds an agent: the report it was given, the role "Cardiologist", empty `extra_info` and the Cardiologist template. |
| Agents.Psychologist | AI-Agents-for-Medical-Diagnostics/Utils/Agents.py:105-107 | Always builds an agent: the report it was given, the role "Psychologist", empty `extra_info` and the Psychologist template. |
| Agents.Pulmonologist | AI-Agents-for-Medical-Diagnostics/Utils/Agents.py:109-111 | Always builds an agent: the report it was given, the role "Pulmonologist", empty `extra_info` and the Pulmonologist template. |
| Agents.Neurologist | AI-Agents-for-Medical-Diagnostics/Utils/Agents.py:113-115 | Always builds an agent: the report it was given, the role "Neurologist", empty `extra_info` and the Neurologist template. |
| Agents.Dermatologist | AI-Agents-for-Medical-Diagnostics/Utils/Agents.py:117-119 | Always builds an agent: the report it was given, the role "Dermatologist", empty `extra_info` and the Dermatologist template. |
| Agents.Endocrinologist | AI-Agents-for-Medical-Diagnostics/Utils/Agents.py:121-123 | Always builds an agent: the report it was given, the role "Endocrinologist", empty `extra_info` and the Endocrinologist template. |
| Agents.Format | AI-Agents-for-Medical-Diagnostics/Utils/Agents.py:92 | A template without a slot is sent as it is. A slotted template gives its prefix, then `str(medical_report)`, then its suffix, and nothing else. |
| Agents.FormatPutsReportAtSlot | AI-Agents-for-Medical-Diagnostics/Utils/Agents.py:92 | Formatting a slotted template writes the report verbatim between prefix and suffix, and the report can be read back from the slot. |
| Agents.SpecialistPromptCarriesReport | AI-Agents-for-Medical-Diagnostics/Utils/Agents.py:34-86 | For every specialist role, the agent built on a report uses that role's template, and its prompt carries the report verbatim at the `{medical_report}` slot. |
| Agents.AbsentReportRendersEmpty | AI-Agents-for-Medical-Diagnostics/Utils/Agents.py:24-29 | A report key missing from `extra_info` renders exactly as an empty report (`.get(key, '')`). |
| Agents.MultidisciplinaryTeam | AI-Agents-for-Medical-Diagnostics/Utils/Agents.py:125-136 | Always builds an agent: no report, the team role, the six reports as `extra_info`, and the team template with those reports written in. |
| Agents.TeamAgentShape | AI-Agents-for-Medical-Diagnostics/Utils/Agents.py:125-136 | The team agent's `extra_info` has exactly the six `*_report` keys, each bound to the matching argument, and it uses the team template. |
| Agents.TeamPromptEmbedsReports | AI-Agents-for-Medical-Diagnostics/Utils/Agents.py:15-31 | The team prompt is the instructions followed by the six report lines in order. The i-th line is `<Role> Report: ` plus the i-th report. |
| Analysis.RunAgentAnalysis | AI-Agents-for-Medical-Diagnostics/streamlit_app.py:74-80 | Never raises and keeps the name. The status is "success" exactly when `agent.run()` returned, with its value as the response; otherwise it is "error" with `Analysis failed: <str(e)>`. |
| Analysis.TaskResults | AI-Agents-for-Medical-Diagnostics/streamlit_app.py:117-120 | One task per agent, in submission order: each keeps its agent's name, takes the "success" branch, and carries that agent's `run()` answer. |
| Analysis.CreateAgents | AI-Agents-for-Medical-Diagnostics/streamlit_app.py:86-93 | The six emoji labels, in order, each bound to its specialist built on the same report with that role's template. |
| Analysis.CollectResults | AI-Agents-for-Medical-Diagnostics/streamlit_app.py:112-132 | The loop leaves `responses` and `agent_status` equal to the dict assignments of every completion, in completion order. `completed_count` equals the number of completions. |
| Analysis.CollectStep | AI-Agents-for-Medical-Diagnostics/streamlit_app.py:124-132 | One completion writes only its own name's slot in `responses` and in `agent_status`. |
| Analysis.InitialStatusShape | AI-Agents-for-Medical-Diagnostics/streamlit_app.py:101 | The initial `agent_status` maps every agent name, in order, to "⏳ Waiting...". |
| Analysis.CollectedResponses | AI-Agents-for-Medical-Diagnostics/streamlit_app.py:117-125 | For any completion order, `responses` holds each completion once, and as a map it equals the responses in submission order. |
| Analysis.CollectedStatuses | AI-Agents-for-Medical-Diagnostics/streamlit_app.py:101-132 | For any completion order, the final `agent_status` lists the agents in submission order with their final statuses. |
| Analysis.FinalStatusOf | AI-Agents-for-Medical-Diagnostics/streamlit_app.py:129-132 | After the loop, each agent's status is "✅ Complete!" if its result was "success" and "❌ Failed" otherwise. |
| Analysis.CollectionCoversAgents | AI-Agents-for-Medical-Diagnostics/streamlit_app.py:112-132 | `completed_count` ends at N, and the keys of `responses` are exactly the agent names. Statuses are Complete/Failed by result status, and none is left Waiting. |
| Analysis.StatusPairsAreFinal | AI-Agents-for-Medical-Diagnostics/streamlit_app.py:129-132 | No final status is "⏳ Waiting...". |
| Analysis.CleanName | AI-Agents-for-Medical-Diagnostics/streamlit_app.py:152 | `name.split()[-1]`: the last whitespace-separated word, raising `IndexError` exactly for a blank name. |
| Analysis.CleanResponses | AI-Agents-for-Medical-Diagnostics/streamlit_app.py:151-154 | The comprehension succeeds exactly when every name has a word, and raises `IndexError` otherwise. |
| Analysis.CleanResponsesPutsEach | AI-Agents-for-Medical-Diagnostics/streamlit_app.py:151-154 | The cleaned dict is the assignments `clean[last word] = response` in iteration order. |
| Analysis.LabelCleansToRole | AI-Agents-for-Medical-Diagnostics/streamlit_app.py:86-93 | Each emoji label's last word is its role name. |
| Analysis.LabelsDistinct | AI-Agents-for-Medical-Diagnostics/streamlit_app.py:86-93 | The six labels are distinct, so no agent overwrites another in `agents`. |
| Analysis.Lookup | AI-Agents-for-Medical-Diagnostics/streamlit_app.py:157-162 | `d[key]` returns the stored value exactly when the key is present, and raises `KeyError(key)` otherwise. |
| Analysis.CleanedLookups | AI-Agents-for-Medical-Diagnostics/streamlit_app.py:151-162 | For any completion order, looking up each role in the cleaned responses finds that specialist's own response. |
| Analysis.GatherFindsEveryReport | AI-Agents-for-Medical-Diagnostics/streamlit_app.py:149-170 | For any completion order, the gather step never raises. It runs the team agent built on the six specialists' responses in role order, and a failed specialist's `Analysis failed: ...` text goes in as its report. |
| Analysis.LookupReports | AI-Agents-for-Medical-Diagnostics/streamlit_app.py:157-162 | The six lookups succeed exactly when all six role names are keys, and then return each role's stored value in role order. Otherwise they raise `KeyError` for the first missing role. |
| Analysis.TeamAnalysis | AI-Agents-for-Medical-Diagnostics/streamlit_app.py:149-166 | The `try` body raises `IndexError` exactly when some name has no word, and otherwise can only raise `KeyError` for a role name. It returns exactly when every name cleans and all six roles are among the cleaned keys. |
| Analysis.FinalDiagnosis | AI-Agents-for-Medical-Diagnostics/streamlit_app.py:149-174 | The team's answer when the gather step returns. When it raises, the text `Team analysis failed: ` followed by `str(e)`. |
| Analysis.TeamAnalysisFailsOnLookup | AI-Agents-for-Medical-Diagnostics/streamlit_app.py:156-163 | A missing role in the cleaned responses makes the gather step raise that lookup's exception. |
| Analysis.MissingCardiologistFailsTeam | AI-Agents-for-Medical-Diagnostics/streamlit_app.py:157 | Without a cleaned "Cardiologist" key, the diagnosis is `Team analysis failed: 'Cardiologist'`. |
| Analysis.AnalysisIsOrderIndependent | AI-Agents-for-Medical-Diagnostics/streamlit_app.py:112-170 | Two completion orders give the same `responses` map and the same final diagnosis. That diagnosis is the team's run on the responses in role order. |
| Analysis.TaskResultsNames | AI-Agents-for-Medical-Diagnostics/streamlit_app.py:117-120 | The submitted tasks carry the six labels in order. |
| Analysis.AnalyzeMedicalReport | AI-Agents-for-Medical-Diagnostics/streamlit_app.py:82-174 | For any completion order, the returned `responses` lists the six results in completion order and equals, as a map, the responses in submission order. The diagnosis is the team's run on the six responses. |
| Analysis.FailedCallIsReportedAsSuccess | AI-Agents-for-Medical-Diagnostics/streamlit_app.py:76-78 | A specialist whose model call fails is still reported as "success" with response `None`, so its status becomes "✅ Complete!". |
| Report.WordCount | AI-Agents-for-Medical-Diagnostics/streamlit_app.py:197 | The word count is 0 exactly for `None` or an all-whitespace response (including `""`), and never exceeds the response's length. |
| Report.DepthStatus | AI-Agents-for-Medical-Diagnostics/streamlit_app.py:201 | "✅ Complete" exactly when the count exceeds 10, and "⚠️ Limited" exactly when it does not. |
| Report.CreateAnalysisSummary | AI-Agents-for-Medical-Diagnostics/streamlit_app.py:195-202 | One row per response entry, in order. Each row has that entry's name and its word count, with "Complete" exactly when the count exceeds 10 and "Limited" otherwise. |
| Report.DepthOfJoinedWords | AI-Agents-for-Medical-Diagnostics/streamlit_app.py:197 | A response made of n words joined by spaces counts n words. |
| Report.NoDepthIsLimited | AI-Agents-for-Medical-Diagnostics/streamlit_app.py:197-201 | A `None` response (a failed model call) counts 0 words and is "Limited", like any response of at most 10 words. |
| Report.SectionHeading | AI-Agents-for-Medical-Diagnostics/streamlit_app.py:342 | A section starts with `\n### <name>` and has the expected length. |
| Report.SectionShowsResponse | AI-Agents-for-Medical-Diagnostics/streamlit_app.py:342 | After its heading line, a section writes `str(response)` verbatim. |
| Report.ExportTxt | AI-Agents-for-Medical-Diagnostics/streamlit_app.py:332-342 | The export is the header followed by all sections joined in dictionary order. |
| Report.AppendSections | AI-Agents-for-Medical-Diagnostics/streamlit_app.py:341-342 | The loop appends one section per entry, in dictionary order, to what it started from. |
| Report.HeaderShowsDiagnosis | AI-Agents-for-Medical-Diagnostics/streamlit_app.py:332-340 | The header carries the timestamp after the title, and the final diagnosis verbatim after its heading. |
| Report.ExportShowsEachReport | AI-Agents-for-Medical-Diagnostics/streamlit_app.py:341-342 | After the header, each entry's section sits at its offset, with that entry's response written out verbatim. |
| Report.ExportKeepsOrder | AI-Agents-for-Medical-Diagnostics/streamlit_app.py:341-342 | The i-th entry's section ends before the j-th's begins, for every i < j. |
| PyDict.Put | AI-Agents-for-Medical-Diagnostics/streamlit_app.py:125 | `d[k] = v` makes `k` map to `v` and leaves every other key's value alone. An existing key keeps its place; a new key is appended. |
| PyStrings.Split | AI-Agents-for-Medical-Diagnostics/streamlit_app.py:152 | `str.split()` gives non-empty words without whitespace, never more words than characters. |
| PyStrings.SplitJoin | AI-Agents-for-Medical-Diagnostics/streamlit_app.py:197 | Splitting words joined by single spaces gives those words back. |
| PyStrings.SplitEmptyIffBlank | AI-Agents-for-Medical-Diagnostics/streamlit_app.py:152 | `s.split()` is empty exactly when `s` is all whitespace. |

## Left out

- Streamlit UI and session state are not modelled: the `st.*` calls, progress bars, status display, CSS, tabs and buttons. `analyze_medical_report` keeps only its values.
- The thread pool is modelled only as its completion order, a permutation of the six tasks. Concurrency itself and `max_workers` are outside a sequential model.
- `ChatOpenAI` and LangChain are modelled as an oracle from prompt to reply or failure. `PromptTemplate.format` is plain substitution at the `{medical_report}` slot.
- `PromptTemplate.from_template` re-reads the team f-string as a template. Braces inside the embedded reports would then become template variables; that library behaviour is not modelled.
- The instruction prose of the templates is data. It is replaced by short stand-ins around the real slot labels.
- The progress ratio (`completed_count / len(agents)`) is floating point and only displayed, so it is not modelled.
- `print`, `load_dotenv`, file reading and upload decoding are I/O and are left out.
- Timestamps are a parameter of the export rather than read from the clock. Download file names, pandas DataFrames, plotly charts and the JSON export are left out.
- `Analysis.CleanName` and `Report.WordCount` split on six ASCII whitespace characters. Python's `str.split()` also splits on other Unicode whitespace.
- Agents.NewAgent: `Agent.__init__` also builds the chat model (Utils/Agents.py:12), which can raise, for instance when no API key is configured. For a specialist that exception escapes `analyze_medical_report` (streamlit_app.py:86-93); for the team agent it would become "Team analysis failed: ..." (streamlit_app.py:156, 172-174). The model has no chat-model object, so neither path is modelled.
- `Agents.Run` does not model exceptions raised by `print` or by `format` itself. `Analysis.RunAgentAnalysis` receives such an exception as the `Raised` outcome of the run.
- `Report.ExportTxt` does not model the session state it reads. It takes the responses, the diagnosis and the formatted timestamp as parameters.
