/**
 * The records the emitter works on: the YouTrack entities it reads and the
 * GraphvizIssue derived from each issue before the forest is built
 * (the `issues.map` of computeDotFromIssues).
 */
module Issues {

  import opened Wrappers
  import opened Text

  datatype User = User(id: string, fullName: string)

  /** The colour pair of an enum value of the issue-type field. */
  datatype FieldStyle = FieldStyle(background: string, foreground: string)

  datatype EnumBundleElement = EnumBundleElement(id: string, name: string, color: Option<FieldStyle>)

  /**
   * The fields of a YouTrack issue that the core reads. `resolved` is a
   * timestamp; `Number.MAX_SAFE_INTEGER` means "not resolved".
   */
  datatype YouTrackIssue = YouTrackIssue(
    id: string,
    summary: string,
    resolved: int,
    assignee: string,
    parent: string,
    customFields: map<string, string>,
    dependencies: seq<string>)

  /**
   * The source names `nodeLabel` `label` (a reserved word here): the DOT
   * identifier of the issue. `escapedSummary` is the HTML-safe summary.
   */
  datatype GraphvizIssue = GraphvizIssue(
    id: string,
    nodeLabel: string,
    summary: string,
    escapedSummary: string,
    isResolved: bool,
    assignee: Option<User>,
    issueType: Option<EnumBundleElement>)

  datatype ExtendedIssue = ExtendedIssue(issue: YouTrackIssue, graphvizIssue: GraphvizIssue)

  // Property accessors, passed to `opt`/`opt2` where the source passes a
  // property name.
  function FullName(u: User): string { u.fullName }
  function ColorOf(t: EnumBundleElement): Option<FieldStyle> { t.color }
  function Foreground(c: FieldStyle): string { c.foreground }
  function Background(c: FieldStyle): string { c.background }

  /** `Number.MAX_SAFE_INTEGER`. */
  const MaxSafeInteger: int := 9007199254740991

  /** `Map.prototype.get`. */
  function MapGet<K, V>(m: map<K, V>, key: K): (r: Option<V>)
    ensures r.Some? <==> key in m
    ensures r.Some? ==> r.value == m[key]
  {
    if key in m then Some(m[key]) else None
  }

  /** A GraphvizIssue whose derived fields agree with its id and summary. */
  predicate IsDerived(g: GraphvizIssue) {
    g.nodeLabel == LabelFromId(g.id) && g.escapedSummary == ReplaceWithHtmlEntities(g.summary)
  }

  /** The GraphvizIssue record that computeDotFromIssues builds for each issue. */
  function ToGraphvizIssue(issue: YouTrackIssue, userMap: map<string, User>, typeFieldId: string,
                           typeMap: map<string, EnumBundleElement>): (g: GraphvizIssue)
    ensures IsDerived(g) && g.id == issue.id && g.summary == issue.summary
    ensures IsIdentifier(g.nodeLabel) && HasNoMarkup(g.escapedSummary)
    ensures g.isResolved <==> issue.resolved < MaxSafeInteger
    ensures g.assignee.Some? <==> issue.assignee in userMap
    ensures g.assignee.Some? ==> g.assignee.value == userMap[issue.assignee]
    ensures g.issueType.Some? <==>
              typeFieldId in issue.customFields && issue.customFields[typeFieldId] in typeMap
    ensures g.issueType.Some? ==> g.issueType.value == typeMap[issue.customFields[typeFieldId]]
  {
    var typeId := MapGet(issue.customFields, typeFieldId);
    GraphvizIssue(
      issue.id,
      LabelFromId(issue.id),
      issue.summary,
      ReplaceWithHtmlEntities(issue.summary),
      issue.resolved < MaxSafeInteger,
      MapGet(userMap, issue.assignee),
      if typeId.None? then None else MapGet(typeMap, typeId.value))
  }

  /** Each issue, in order, paired with its GraphvizIssue. */
  function ExtendIssues(issues: seq<YouTrackIssue>, userMap: map<string, User>, typeFieldId: string,
                        typeMap: map<string, EnumBundleElement>): (r: seq<ExtendedIssue>)
    ensures |r| == |issues|
    ensures forall i | 0 <= i < |issues| ::
              r[i].issue == issues[i] && r[i].graphvizIssue == ToGraphvizIssue(issues[i], userMap, typeFieldId, typeMap)
  {
    seq(|issues|, i requires 0 <= i < |issues| =>
      ExtendedIssue(issues[i], ToGraphvizIssue(issues[i], userMap, typeFieldId, typeMap)))
  }
}
