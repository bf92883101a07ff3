/**
 * The proposal generator form: a proposal is produced only when all three
 * fields are filled in, and its text is a fixed two-paragraph template
 * with the name, the project description and the budget spliced in.
 */
module ProposalForm {
  import opened Wrappers

  /** The one way the form can be refused: some field was left empty. */
  datatype FormError = MissingFields

  const Intro: string := "My name is "
  const AfterName: string := ", and I propose a project focused on: "
  const AfterProject: string := ".\n\nThe estimated budget required is "
  const Closing: string := ". I am seeking funding to bring this vision to life."

  /**
   * The proposal text. The three values appear verbatim, in the order name,
   * project, budget, each right after its fixed lead-in, and the text ends
   * with the fixed closing sentence.
   */
  function ProposalText(name: string, project: string, budget: string): (r: string)
    ensures |r| == |Intro| + |name| + |AfterName| + |project| + |AfterProject| + |budget| + |Closing|
    ensures r[..|Intro|] == Intro
    ensures r[|Intro|..|Intro| + |name|] == name
    ensures r[|Intro| + |name|..][..|AfterName|] == AfterName
    ensures r[|Intro| + |name| + |AfterName|..][..|project|] == project
    ensures r[|Intro| + |name| + |AfterName| + |project|..][..|AfterProject|] == AfterProject
    ensures r[|r| - |Closing| - |budget|..|r| - |Closing|] == budget
    ensures r[|r| - |Closing|..] == Closing
  {
    Intro + name + AfterName + project + AfterProject + budget + Closing
  }

  /**
   * Submitting the form: refused with `MissingFields` iff the name, the
   * project description or the budget is empty; otherwise the proposal text.
   */
  function SubmitProposal(name: string, project: string, budget: string): (r: Result<string, FormError>)
    ensures r.Success? <==> name != "" && project != "" && budget != ""
    ensures r.Failure? ==> r.error == MissingFields
    ensures r.Success? ==> r.value == ProposalText(name, project, budget)
  {
    if name == "" || project == "" || budget == "" then Failure(MissingFields)
    else Success(ProposalText(name, project, budget))
  }

  /**
   * Once the lengths of the name and the project description are known, the
   * text determines all three values: two submissions that differ in a value
   * give different proposals.
   */
  lemma ProposalDeterminesFields(n1: string, p1: string, b1: string, n2: string, p2: string, b2: string)
    requires |n1| == |n2| && |p1| == |p2|
    requires ProposalText(n1, p1, b1) == ProposalText(n2, p2, b2)
    ensures n1 == n2 && p1 == p2 && b1 == b2
  {
  }
}
