/**
 The structured lead-scoring record that the scoring crew is asked to produce:
 personal information about the lead, information about the lead's company,
 and the score with the criteria behind it.

 The only integer range constraints the schema declares are on
 `role_relevance` (0..10) and on `score` (0..100). `market_presence` is
 described as a 0-10 score but carries no declared bound, so it is not
 constrained here either.
 */
module LeadRecords {
  import opened Wrappers

  /** Annual revenue, a floating-point amount in the source, is carried as a
      `real` and never computed on; NaN and infinities are not represented. */
  type Revenue = real

  const MinRoleRelevance: int := 0
  const MaxRoleRelevance: int := 10
  const MinScore: int := 0
  const MaxScore: int := 100

  datatype LeadPersonalInfo = LeadPersonalInfo(
    name: string,
    jobTitle: string,
    roleRelevance: int,
    professionalBackground: Option<string>)

  datatype CompanyInfo = CompanyInfo(
    companyName: string,
    industry: string,
    companySize: int,
    revenue: Option<Revenue>,
    marketPresence: int)

  datatype LeadScore = LeadScore(
    score: int,
    scoringCriteria: seq<string>,
    validationNotes: Option<string>)

  datatype LeadScoringResult = LeadScoringResult(
    personalInfo: LeadPersonalInfo,
    companyInfo: CompanyInfo,
    leadScore: LeadScore)

  /** A field constraint a record breaks, with the offending value. */
  datatype ConstraintViolation =
    | RoleRelevanceOutOfRange(roleRelevance: int)
    | ScoreOutOfRange(score: int)

  predicate ValidPersonalInfo(p: LeadPersonalInfo) {
    MinRoleRelevance <= p.roleRelevance <= MaxRoleRelevance
  }

  predicate ValidLeadScore(s: LeadScore) {
    MinScore <= s.score <= MaxScore
  }

  /** A record every declared field constraint accepts. */
  predicate ValidResult(r: LeadScoringResult) {
    ValidPersonalInfo(r.personalInfo) && ValidLeadScore(r.leadScore)
  }

  /** Every declared constraint the record breaks, in field declaration order;
      schema validation reports all of them rather than stopping at the first. */
  function Violations(r: LeadScoringResult): (errs: seq<ConstraintViolation>)
    ensures |errs| == 0 <==> ValidResult(r)
    ensures |errs| == (if ValidPersonalInfo(r.personalInfo) then 0 else 1)
                      + (if ValidLeadScore(r.leadScore) then 0 else 1)
    ensures |errs| == 2 ==> errs[0].RoleRelevanceOutOfRange? && errs[1].ScoreOutOfRange?
    ensures RoleRelevanceOutOfRange(r.personalInfo.roleRelevance) in errs
            <==> !ValidPersonalInfo(r.personalInfo)
    ensures ScoreOutOfRange(r.leadScore.score) in errs <==> !ValidLeadScore(r.leadScore)
    ensures forall e :: e in errs ==>
              match e
              case RoleRelevanceOutOfRange(v) =>
                v == r.personalInfo.roleRelevance && (v < MinRoleRelevance || MaxRoleRelevance < v)
              case ScoreOutOfRange(v) =>
                v == r.leadScore.score && (v < MinScore || MaxScore < v)
  {
    var personal := if ValidPersonalInfo(r.personalInfo) then []
                    else [RoleRelevanceOutOfRange(r.personalInfo.roleRelevance)];
    var score := if ValidLeadScore(r.leadScore) then []
                 else [ScoreOutOfRange(r.leadScore.score)];
    personal + score
  }
}
