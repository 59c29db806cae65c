/**
  The evidence bundle as the validator and the selector see it. Times that the code parses are milliseconds, times that it
  compares as texts are texts, and basis points are integers. What is copied through without being read (units, values,
  claim texts, calculators, models) is an item's content.
 */
module Evidence {

  datatype Option<+T> = None | Some(value: T)

  type Id = string

  /** An ISO 8601 text; where the code compares such times it compares the texts. */
  type Timestamp = string

  datatype FeatureStatus = Available | Unavailable | Invalid

  datatype Provenance = DeterministicCalculator | Derived | Collected | HumanAuthored

  datatype Direction = Bullish | Bearish | Neutral | Mixed | Unknown

  /** The families that candidates compete in: six for features, five for claims and one for briefs. */
  datatype Family =
    | MarketState | PriceQuality | ClmmEconomics | PositionState | Liquidity | Risk
    | SupportResistance | Flows | Derivatives | Events | NewsRegulatory
    | ResearchBrief

  datatype Feature = Feature(
    featureId: Id,
    family: Family,
    status: FeatureStatus,
    confidenceBps: int,
    observedAt: Option<Timestamp>,
    freshUntil: int,
    inputLineage: seq<Id>,
    warnings: seq<string>,
    content: string)

  datatype Claim = Claim(
    evidenceId: Id,
    provenance: Provenance,
    direction: Direction,
    confidenceBps: int,
    observedAt: Timestamp,
    expiresAt: Option<int>,
    sourceReferenceIds: seq<Id>,
    content: string)

  datatype Brief = Brief(
    briefId: Id,
    generatedAt: Timestamp,
    sourceEvidenceIds: seq<Id>,
    keyFindings: seq<string>,
    uncertainties: seq<string>,
    content: string)

  datatype Contextual = Contextual(
    supportResistance: seq<Claim>,
    flows: seq<Claim>,
    derivatives: seq<Claim>,
    events: seq<Claim>,
    newsRegulatory: seq<Claim>)

  datatype SourceReference = SourceReference(referenceId: Id, sourceType: string, locator: string, observedAt: Timestamp)

  datatype Bundle = Bundle(
    publisher: string,
    sourceId: string,
    runId: string,
    correlationId: string,
    scopeKey: string,
    asOf: Timestamp,
    freshUntil: int,
    expiresAt: int,
    overallConfidenceBps: int,
    features: seq<Feature>,
    contextual: Contextual,
    brief: Option<Brief>,
    sourceReferences: seq<SourceReference>)

  /** The five claim lists, concatenated in the order the source spreads them. */
  function AllClaims(ctx: Contextual): seq<Claim> {
    ctx.supportResistance + ctx.flows + ctx.derivatives + ctx.events + ctx.newsRegulatory
  }

  function FeatureIds(fs: seq<Feature>): (ids: seq<Id>)
    ensures |ids| == |fs| && forall i :: 0 <= i < |fs| ==> ids[i] == fs[i].featureId
  {
    seq(|fs|, i requires 0 <= i < |fs| => fs[i].featureId)
  }

  function ClaimIds(cs: seq<Claim>): (ids: seq<Id>)
    ensures |ids| == |cs| && forall i :: 0 <= i < |cs| ==> ids[i] == cs[i].evidenceId
  {
    seq(|cs|, i requires 0 <= i < |cs| => cs[i].evidenceId)
  }

  function ReferenceIds(refs: seq<SourceReference>): (ids: seq<Id>)
    ensures |ids| == |refs| && forall i :: 0 <= i < |refs| ==> ids[i] == refs[i].referenceId
  {
    seq(|refs|, i requires 0 <= i < |refs| => refs[i].referenceId)
  }

  function SetOf<T>(s: seq<T>): set<T> {
    set x | x in s
  }

  ghost predicate NoDuplicates<T>(s: seq<T>) {
    forall i, j :: 0 <= i < j < |s| ==> s[i] != s[j]
  }
}
