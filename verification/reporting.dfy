/** The request types of the Analytics Reporting API v4 client
    (`google.golang.org/api/analyticsreporting/v4`) that supportv4 builds and
    reads, with the fields it uses.  A Go pointer field is an Option; a
    list of pointers is a sequence of values. */
module Reporting {
  import opened Wrappers

  datatype SegmentDimensionFilter = SegmentDimensionFilter(
    dimensionName: string,
    operator: string,
    expressions: seq<string>,
    minComparisonValue: string,
    maxComparisonValue: string)

  datatype SegmentMetricFilter = SegmentMetricFilter(
    metricName: string,
    operator: string,
    scope: string,
    comparisonValue: string,
    maxComparisonValue: string)

  datatype SegmentFilterClause = SegmentFilterClause(
    not: bool,
    dimensionFilter: Option<SegmentDimensionFilter>,
    metricFilter: Option<SegmentMetricFilter>)

  datatype OrFiltersForSegment = OrFiltersForSegment(segmentFilterClauses: seq<SegmentFilterClause>)

  datatype SimpleSegment = SimpleSegment(orFiltersForSegment: seq<OrFiltersForSegment>)

  datatype SegmentSequenceStep = SegmentSequenceStep(matchType: string, orFiltersForSegment: seq<OrFiltersForSegment>)

  datatype SequenceSegment = SequenceSegment(
    firstStepShouldMatchFirstHit: bool,
    segmentSequenceSteps: seq<SegmentSequenceStep>)

  datatype SegmentFilter = SegmentFilter(
    not: bool,
    simpleSegment: Option<SimpleSegment>,
    sequenceSegment: Option<SequenceSegment>)

  datatype SegmentDefinition = SegmentDefinition(segmentFilters: seq<SegmentFilter>)

  datatype DynamicSegment = DynamicSegment(
    name: string,
    sessionSegment: Option<SegmentDefinition>,
    userSegment: Option<SegmentDefinition>)
}
