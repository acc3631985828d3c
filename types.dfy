/** Shared data types of the resilience-and-observability core (types.ts). */
module Types {

  /** An optional value; stands for a TypeScript field that may be `undefined`. */
  datatype Option<+T> = None | Some(value: T)

  /** The three health levels a monitor can report. */
  datatype SystemStatus = HEALTHY | DEGRADED | DOWN

  /** The three states of the circuit breaker, as the monitor records them. */
  datatype CircuitState = CLOSED | OPEN | HALF_OPEN

  /** A telemetry snapshot: counters, the rounded mean latency, the last error,
      the derived health status and the last reported circuit state.
      Latencies are whole milliseconds. */
  datatype SystemMetrics = SystemMetrics(
    requestsTotal: nat,
    requestsFailed: nat,
    averageLatency: nat,
    lastError: Option<string>,
    status: SystemStatus,
    circuitBreakerState: CircuitState)

  /** One entry of the knowledge corpus: an identifier, its tags and its text. */
  datatype RAGChunk = RAGChunk(id: string, tags: seq<string>, content: string)
}
