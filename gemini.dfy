/**
 * The analysis provider of geminiService.ts, seen from the dashboard.
 * The network call is left abstract: what the provider did is a parameter.
 * `analyzePerformance` never rejects. Without an API key it returns one
 * fixed analysis; when the call or the parsing of its text throws it
 * returns another.
 */
module Gemini {
  import opened Wrappers
  import opened Types

  /** What happened to the provider call: no client configured, a reply text, or a thrown error. */
  datatype ProviderReply = NoApiKey | Replied(content: string) | Threw

  /** The analysis returned when no API key is configured. */
  const PendingConfiguration: PerformanceAnalysis := PerformanceAnalysis(
    "Technical evaluation pending API configuration.",
    ["Set GOOGLE_API_KEY environment variable", "Configure Gemini API access"],
    "General Engineering Practice")

  /** The analysis returned when the call or JSON.parse throws. */
  const ServiceUnavailable: PerformanceAnalysis := PerformanceAnalysis(
    "AI analysis unavailable at this moment. Your performance shows solid progress across subjects. "
      + "Continue focusing on practical lab applications to strengthen fundamental skills.",
    ["Master core concepts through hands-on practice", "Participate actively in lab sessions",
     "Review theory before lab experiments", "Seek clarification on difficult topics"],
    "Software Engineering / Systems Design")

  /** analyzePerformance: the parsed reply, or one of the two fallbacks; `parse` is JSON.parse (None when it throws). */
  function AnalyzePerformance(reply: ProviderReply, parse: string -> Option<PerformanceAnalysis>): PerformanceAnalysis
  {
    match reply
    case NoApiKey => PendingConfiguration
    case Threw => ServiceUnavailable
    case Replied(content) =>
      match parse(content)
      case Some(a) => a
      case None => ServiceUnavailable
  }

  /**
   * Every outcome is accounted for: a missing key gives the configuration
   * fallback, a thrown call or unparseable reply the unavailable fallback,
   * and a parseable reply its analysis.
   */
  lemma AnalyzeOutcomes(reply: ProviderReply, parse: string -> Option<PerformanceAnalysis>)
    ensures reply.NoApiKey? ==> AnalyzePerformance(reply, parse) == PendingConfiguration
    ensures reply.Threw? || (reply.Replied? && parse(reply.content).None?)
            ==> AnalyzePerformance(reply, parse) == ServiceUnavailable
    ensures reply.Replied? && parse(reply.content).Some?
            ==> AnalyzePerformance(reply, parse) == parse(reply.content).value
  {
  }

  /** The two fallbacks can be told apart by their career path. */
  lemma FallbacksDiffer()
    ensures PendingConfiguration != ServiceUnavailable
  {
    assert PendingConfiguration.careerPath[0] != ServiceUnavailable.careerPath[0];
  }
}
