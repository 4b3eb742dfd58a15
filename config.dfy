/** The fixed settings of the server (class `Config` and the request limits of the endpoints). */
module Config {
  const AllowedSchemes: set<string> := {"http", "https"}
  const BlockedHosts: set<string> := {"localhost", "127.0.0.1", "0.0.0.0", "::1"}
  /** Host-name prefixes refused as private ranges, matched as plain string prefixes. */
  const PrivatePrefixes: seq<string> := ["192.168.", "10.", "172."]
  const MaxUrlLength := 2048

  const MaxPagesPerCrawl := 10
  const MinChunkLength := 50
  const MaxChunkLength := 2000

  const MaxTotalChunks := 10000
  const MaxChunksPerSource := 1000

  const TopKRetrieval := 5

  /** `IngestRequest.max_pages`: default 5, constrained to 1..20. */
  const DefaultIngestPages := 5
  const MinIngestPages := 1
  const MaxIngestPages := 20

  /** `ChatRequest.question`: 1..500 characters before stripping. */
  const MaxQuestionLength := 500

  /** Character budgets of the text samples used by the briefing and podcast endpoints. */
  const BriefingSampleChars := 10000
  const PodcastSampleChars := 3000
}
