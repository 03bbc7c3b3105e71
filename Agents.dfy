/** The agents of `Utils/Agents.py`: an agent is a role, the report it
    analyses, its `extra_info` and the prompt template chosen for the role
    when the agent is built. Fields are set once by `__init__`, so an agent is
    a value here. The chat model is an oracle passed to `Run`. */
module Agents {
  import opened PyValues
  import opened PyStrings

  /** A prompt template as the model sees it: fixed text around one
      `{medical_report}` slot, or text with no slot at all. */
  datatype Template = Slotted(prefix: string, suffix: string) | Fixed(text: string)

  /** `extra_info`: only ever looked up, never iterated. */
  type ExtraInfo = map<string, Option<string>>

  datatype Agent = Agent(
    medicalReport: Option<string>,
    role: Option<string>,
    extraInfo: ExtraInfo,
    promptTemplate: Template)

  /** What the chat model's `invoke` does with one prompt: the content of its
      reply, or an exception with its message. */
  datatype Reply = Content(text: string) | Fails(message: string)

  type Oracle = string -> Reply

  const TeamRole: string := "MultidisciplinaryTeam"

  const SpecialistRoles: seq<string> :=
    ["Cardiologist", "Psychologist", "Pulmonologist", "Neurologist", "Dermatologist", "Endocrinologist"]

  /** The roles `create_prompt_template` accepts. */
  const KnownRoles: set<string> :=
    {"Cardiologist", "Psychologist", "Pulmonologist", "Neurologist", "Dermatologist", "Endocrinologist", TeamRole}

  /** The specialist templates. The instruction prose of each is data, written
      here as a short stand-in; what matters is the label before the slot and
      that each role has its own text. */
  const SpecialistTemplates: map<string, Template> := map[
    "Cardiologist" := Slotted("<cardiologist instructions>\nMedical Report: ", "\n"),
    "Psychologist" := Slotted("<psychologist instructions>\nPatient's Report: ", "\n"),
    "Pulmonologist" := Slotted("<pulmonologist instructions>\nPatient's Report: ", "\n"),
    "Neurologist" := Slotted("<neurologist instructions>\nPatient's Report: ", "\n"),
    "Dermatologist" := Slotted("<dermatologist instructions>\nPatient's Report: ", "\n"),
    "Endocrinologist" := Slotted("<endocrinologist instructions>\nPatient's Report: ", "\n")
  ]

  /** The instruction prose of the team template (a stand-in, as above). */
  const TeamInstructions: string := "<multidisciplinary team instructions>\n"

  /** The team template's report lines: the label of each line and the
      `extra_info` key whose value it embeds. */
  const TeamSlots: seq<(string, string)> := [
    ("Cardiologist", "cardiologist_report"),
    ("Psychologist", "psychologist_report"),
    ("Pulmonologist", "pulmonologist_report"),
    ("Neurologist", "neurologist_report"),
    ("Dermatologist", "dermatologist_report"),
    ("Endocrinologist", "endocrinologist_report")
  ]

  const TeamReportKeys: set<string> := {
    "cardiologist_report", "psychologist_report", "pulmonologist_report",
    "neurologist_report", "dermatologist_report", "endocrinologist_report"
  }

  /** `{self.extra_info.get(key, '')}` inside the team f-string. */
  function Embedded(extraInfo: ExtraInfo, key: string): string {
    if key in extraInfo then Show(extraInfo[key]) else ""
  }

  function ReportLine(extraInfo: ExtraInfo, slot: (string, string)): string {
    slot.0 + " Report: " + Embedded(extraInfo, slot.1) + "\n"
  }

  function ReportLines(extraInfo: ExtraInfo): (lines: seq<string>)
    ensures |lines| == |TeamSlots|
  {
    seq(|TeamSlots|, i requires 0 <= i < |TeamSlots| => ReportLine(extraInfo, TeamSlots[i]))
  }

  /** The team f-string once evaluated: the reports are in the text itself. */
  function TeamText(extraInfo: ExtraInfo): string {
    TeamInstructions + Concat(ReportLines(extraInfo))
  }

  /** `create_prompt_template`: the team branch for `MultidisciplinaryTeam`,
      the table entry for a specialist, `ValueError` for anything else. */
  function CreatePromptTemplate(role: Option<string>, extraInfo: ExtraInfo): (r: Call<Template>)
    ensures r.Returned? <==> role.Some? && role.value in KnownRoles
    ensures r.Raised? ==> r.exception == ValueError("Unknown role: " + Show(role))
    ensures role == Some(TeamRole) ==> r == Returned(Fixed(TeamText(extraInfo)))
    ensures role.Some? && role.value in SpecialistTemplates ==> r == Returned(SpecialistTemplates[role.value])
  {
    if role == Some(TeamRole) then
      Returned(Fixed(TeamText(extraInfo)))
    else if Truthy(role) && role.value in SpecialistTemplates then
      Returned(SpecialistTemplates[role.value])
    else
      Raised(ValueError("Unknown role: " + Show(role)))
  }

  /** `Agent.__init__`. `extra_info or {}` turns `None` into `{}`; an empty
      dict is falsy too, but is replaced by an equal value. The chat model
      that `__init__` creates is not part of the value. */
  function NewAgent(medicalReport: Option<string>, role: Option<string>, extraInfo: Option<ExtraInfo>): (r: Call<Agent>)
    ensures r.Returned? <==> role.Some? && role.value in KnownRoles
    ensures r.Raised? ==> r.exception == ValueError("Unknown role: " + Show(role))
    ensures r.Returned? ==> r.value.medicalReport == medicalReport && r.value.role == role
    ensures r.Returned? ==> r.value.extraInfo == (if extraInfo.Some? then extraInfo.value else map[])
  {
    var info := if extraInfo.Some? then extraInfo.value else map[];
    var template :- CreatePromptTemplate(role, info);
    Returned(Agent(medicalReport, role, info, template))
  }

  /** `prompt_template.format(medical_report=...)`: a slotted template gets
      `str(medical_report)` between its prefix and suffix; a template without
      a slot is returned as it is. */
  function Format(template: Template, medicalReport: Option<string>): (prompt: string)
    ensures template.Fixed? ==> prompt == template.text
    ensures template.Slotted? ==>
      && |prompt| == |template.prefix| + |Show(medicalReport)| + |template.suffix|
      && prompt[..|template.prefix|] == template.prefix
      && prompt[|template.prefix|..][..|Show(medicalReport)|] == Show(medicalReport)
      && prompt[|prompt| - |template.suffix|..] == template.suffix
  {
    match template
    case Slotted(prefix, suffix) => prefix + Show(medicalReport) + suffix
    case Fixed(text) => text
  }

  /** The inverse of `Format` on a slotted template: the text found at the slot. */
  function ReportAtSlot(template: Template, prompt: string): Option<string> {
    match template
    case Fixed(_) => None
    case Slotted(prefix, suffix) =>
      if |prefix| + |suffix| <= |prompt| && prompt[..|prefix|] == prefix && prompt[|prompt| - |suffix|..] == suffix
      then Some(prompt[|prefix|..|prompt| - |suffix|])
      else None
  }

  /** The prompt `run` sends. */
  function Prompt(agent: Agent): string {
    Format(agent.promptTemplate, agent.medicalReport)
  }

  /** `Agent.run`: the content of the model's reply, or `None` when the call
      fails. The failure never leaves `run`. */
  function Run(agent: Agent, invoke: Oracle): (r: Option<string>)
    ensures r.Some? <==> invoke(Prompt(agent)).Content?
    ensures r.Some? ==> r.value == invoke(Prompt(agent)).text
  {
    match invoke(Prompt(agent))
    case Content(text) => Some(text)
    case Fails(_) => None
  }

  /** `Cardiologist(medical_report)`: the role is the class name, with no `extra_info`. */
  function Cardiologist(medicalReport: Option<string>): (r: Call<Agent>)
    ensures r == Returned(Agent(medicalReport, Some("Cardiologist"), map[], SpecialistTemplates["Cardiologist"]))
  {
    NewAgent(medicalReport, Some("Cardiologist"), None)
  }

  /** `Psychologist(medical_report)`: the role is the class name, with no `extra_info`. */
  function Psychologist(medicalReport: Option<string>): (r: Call<Agent>)
    ensures r == Returned(Agent(medicalReport, Some("Psychologist"), map[], SpecialistTemplates["Psychologist"]))
  {
    NewAgent(medicalReport, Some("Psychologist"), None)
  }

  /** `Pulmonologist(medical_report)`: the role is the class name, with no `extra_info`. */
  function Pulmonologist(medicalReport: Option<string>): (r: Call<Agent>)
    ensures r == Returned(Agent(medicalReport, Some("Pulmonologist"), map[], SpecialistTemplates["Pulmonologist"]))
  {
    NewAgent(medicalReport, Some("Pulmonologist"), None)
  }

  /** `Neurologist(medical_report)`: the role is the class name, with no `extra_info`. */
  function Neurologist(medicalReport: Option<string>): (r: Call<Agent>)
    ensures r == Returned(Agent(medicalReport, Some("Neurologist"), map[], SpecialistTemplates["Neurologist"]))
  {
    NewAgent(medicalReport, Some("Neurologist"), None)
  }

  /** `Dermatologist(medical_report)`: the role is the class name, with no `extra_info`. */
  function Dermatologist(medicalReport: Option<string>): (r: Call<Agent>)
    ensures r == Returned(Agent(medicalReport, Some("Dermatologist"), map[], SpecialistTemplates["Dermatologist"]))
  {
    NewAgent(medicalReport, Some("Dermatologist"), None)
  }

  /** `Endocrinologist(medical_report)`: the role is the class name, with no `extra_info`. */
  function Endocrinologist(medicalReport: Option<string>): (r: Call<Agent>)
    ensures r == Returned(Agent(medicalReport, Some("Endocrinologist"), map[], SpecialistTemplates["Endocrinologist"]))
  {
    NewAgent(medicalReport, Some("Endocrinologist"), None)
  }

  /** The `extra_info` that `MultidisciplinaryTeam.__init__` builds. */
  function TeamExtraInfo(
    cardiologistReport: Option<string>, psychologistReport: Option<string>,
    pulmonologistReport: Option<string>, neurologistReport: Option<string>,
    dermatologistReport: Option<string>, endocrinologistReport: Option<string>): ExtraInfo
  {
    map[
      "cardiologist_report" := cardiologistReport,
      "psychologist_report" := psychologistReport,
      "pulmonologist_report" := pulmonologistReport,
      "neurologist_report" := neurologistReport,
      "dermatologist_report" := dermatologistReport,
      "endocrinologist_report" := endocrinologistReport
    ]
  }

  /** `MultidisciplinaryTeam(...)`: no report, the team role, the six reports
      as `extra_info`, and the team template with those reports written in. */
  function MultidisciplinaryTeam(
    cardiologistReport: Option<string>, psychologistReport: Option<string>,
    pulmonologistReport: Option<string>, neurologistReport: Option<string>,
    dermatologistReport: Option<string>, endocrinologistReport: Option<string>): (r: Call<Agent>)
    ensures
      var info := TeamExtraInfo(
        cardiologistReport, psychologistReport, pulmonologistReport,
        neurologistReport, dermatologistReport, endocrinologistReport);
      r == Returned(Agent(None, Some(TeamRole), info, Fixed(TeamText(info))))
  {
    var extraInfo := TeamExtraInfo(
      cardiologistReport, psychologistReport, pulmonologistReport,
      neurologistReport, dermatologistReport, endocrinologistReport);
    NewAgent(None, Some(TeamRole), Some(extraInfo))
  }

  /** A slotted template puts the report verbatim at its slot: reading the
      slot back gives the report. */
  lemma FormatPutsReportAtSlot(prefix: string, suffix: string, report: string)
    ensures Format(Slotted(prefix, suffix), Some(report)) == prefix + report + suffix
    ensures ReportAtSlot(Slotted(prefix, suffix), Format(Slotted(prefix, suffix), Some(report))) == Some(report)
  {
    var prompt := prefix + report + suffix;
    assert prompt[..|prefix|] == prefix;
    assert prompt[|prompt| - |suffix|..] == suffix;
    assert prompt[|prefix|..|prompt| - |suffix|] == report;
  }

  /** For a specialist role the agent's prompt is that role's template with the
      report at the slot, and nothing else. */
  lemma SpecialistPromptCarriesReport(role: string, report: string)
    requires role in SpecialistTemplates
    ensures NewAgent(Some(report), Some(role), None).Returned?
    ensures
      var agent := NewAgent(Some(report), Some(role), None).value;
      && agent.promptTemplate == SpecialistTemplates[role]
      && Prompt(agent) == SpecialistTemplates[role].prefix + report + SpecialistTemplates[role].suffix
      && ReportAtSlot(agent.promptTemplate, Prompt(agent)) == Some(report)
  {
    var t := SpecialistTemplates[role];
    assert t.Slotted?;
    FormatPutsReportAtSlot(t.prefix, t.suffix, report);
  }

  /** An absent report key renders exactly like an empty report. */
  lemma AbsentReportRendersEmpty(extraInfo: ExtraInfo, key: string)
    requires key !in extraInfo
    ensures TeamText(extraInfo) == TeamText(extraInfo[key := Some("")])
  {
    assert ReportLines(extraInfo) == ReportLines(extraInfo[key := Some("")]) by {
      forall i | 0 <= i < |TeamSlots|
        ensures ReportLines(extraInfo)[i] == ReportLines(extraInfo[key := Some("")])[i]
      {
        assert Embedded(extraInfo, TeamSlots[i].1) == Embedded(extraInfo[key := Some("")], TeamSlots[i].1);
      }
    }
  }

  /** The `extra_info` of the team agent has exactly the six report names as
      keys, each bound to its own argument. */
  lemma TeamAgentShape(
    cardiologistReport: Option<string>, psychologistReport: Option<string>,
    pulmonologistReport: Option<string>, neurologistReport: Option<string>,
    dermatologistReport: Option<string>, endocrinologistReport: Option<string>)
    ensures
      var info := TeamExtraInfo(
        cardiologistReport, psychologistReport, pulmonologistReport,
        neurologistReport, dermatologistReport, endocrinologistReport);
      && info.Keys == TeamReportKeys
      && info["cardiologist_report"] == cardiologistReport
      && info["psychologist_report"] == psychologistReport
      && info["pulmonologist_report"] == pulmonologistReport
      && info["neurologist_report"] == neurologistReport
      && info["dermatologist_report"] == dermatologistReport
      && info["endocrinologist_report"] == endocrinologistReport
  {
  }

  /** For any `extra_info`, the team prompt is the instructions followed by one
      line per specialist in the template's order: the specialist's label, then
      `str` of its report, or nothing when the key is absent. */
  lemma TeamPromptLayout(extraInfo: ExtraInfo, i: nat)
    requires i < |TeamSlots|
    ensures
      var lines := ReportLines(extraInfo);
      && Format(Fixed(TeamText(extraInfo)), None)
         == TeamInstructions + (Concat(lines[..i]) + lines[i] + Concat(lines[i + 1..]))
      && lines[i] == TeamSlots[i].0 + " Report: "
           + (if TeamSlots[i].1 in extraInfo then Show(extraInfo[TeamSlots[i].1]) else "") + "\n"
  {
    ConcatAt(ReportLines(extraInfo), i);
  }

  /** The team prompt holds each report verbatim right after that specialist's
      label, between the lines before it and the lines after it. */
  lemma TeamPromptEmbedsReports(reports: seq<Option<string>>, i: nat)
    requires |reports| == 6 && i < 6
    ensures
      var info := TeamExtraInfo(reports[0], reports[1], reports[2], reports[3], reports[4], reports[5]);
      var lines := ReportLines(info);
      && Format(Fixed(TeamText(info)), None)
         == TeamInstructions + (Concat(lines[..i]) + lines[i] + Concat(lines[i + 1..]))
      && lines[i] == TeamSlots[i].0 + " Report: " + Show(reports[i]) + "\n"
  {
    var info := TeamExtraInfo(reports[0], reports[1], reports[2], reports[3], reports[4], reports[5]);
    assert info[TeamSlots[i].1] == reports[i];
    TeamPromptLayout(info, i);
  }
}
