/** The kinds of durable jobs. */
module JobTypes {
  datatype JobType =
    | GateArticle
    | CreateArticleCard
    | RefreshCase
    | AuditCaseCoherence
    | AuditCasePublicInterest
    | AuditCaseDuplicates
    | ResolveArticleCases
    | ResolveArticleEntities
    | ResolveArticleEvents
    | ClassifyArticle
}
