/** Streaming a completion with silent retries: never after the first chunk, and with bounded backoff. */
module RetryingStream {
  import opened Wrappers

  const MAX_TRANSIENT_RETRIES: nat := 4
  const RETRY_BACKOFF_MS: seq<nat> := [2_000, 5_000, 12_000, 25_000]

  type Chunk = nat

  datatype ErrorType = Overloaded | ApiError | InternalServer | RateLimit | OtherType

  datatype ProviderError = ProviderError(errorType: Option<ErrorType>, status: Option<nat>)

  /** What the provider does in one attempt: some chunks, then the end of the stream or an error. */
  datatype Attempt = Attempt(chunks: seq<Chunk>, error: Option<ProviderError>)

  predicate Retryable(e: ProviderError) {
    || (e.errorType.Some? && e.errorType.value != OtherType)
    || (e.status.Some? && e.status.value in {429, 500, 502, 503, 504, 529})
  }

  /** An attempt that may be repeated without the consumer noticing. */
  predicate Silent(a: Attempt) {
    a.chunks == [] && a.error.Some? && Retryable(a.error.value)
  }

  /** A type the provider uses for overload, internal trouble or rate limits, or a status that says so. */
  lemma RetryableIs(e: ProviderError)
    ensures Retryable(e)
            <==> || e.errorType == Some(Overloaded) || e.errorType == Some(ApiError)
                 || e.errorType == Some(InternalServer) || e.errorType == Some(RateLimit)
                 || e.status == Some(429) || e.status == Some(529)
                 || (e.status.Some? && 500 <= e.status.value <= 504 && e.status.value != 501)
  {
  }

  function TotalBackoff(retries: nat): nat
    requires retries <= |RETRY_BACKOFF_MS|
  {
    if retries == 0 then 0 else TotalBackoff(retries - 1) + RETRY_BACKOFF_MS[retries - 1]
  }

  lemma BackoffBound(retries: nat)
    requires retries <= MAX_TRANSIENT_RETRIES
    ensures TotalBackoff(retries) == [0, 2_000, 7_000, 19_000, 44_000][retries]
  {
    assert TotalBackoff(1) == 2_000;
    assert TotalBackoff(2) == 7_000;
    assert TotalBackoff(3) == 19_000;
    assert TotalBackoff(4) == 44_000;
  }

  /**
   * Whatever the provider does, the consumer sees exactly the chunks of the last attempt and its end. The
   * attempts before it were silent, and the last one either was not or was the fifth.
   */
  method StreamChunks(provider: nat -> Attempt)
    returns (yielded: seq<Chunk>, error: Option<ProviderError>, attempts: nat, waitedMs: nat)
    ensures 1 <= attempts <= MAX_TRANSIENT_RETRIES + 1
    ensures yielded == provider(attempts - 1).chunks && error == provider(attempts - 1).error
    ensures forall i :: 0 <= i < attempts - 1 ==> Silent(provider(i))
    ensures Silent(provider(attempts - 1)) ==> attempts == MAX_TRANSIENT_RETRIES + 1
    ensures attempts <= 5 && waitedMs == [0, 2_000, 7_000, 19_000, 44_000][attempts - 1]
  {
    var attempt: nat := 0;
    yielded, waitedMs := [], 0;
    while true
      invariant attempt <= MAX_TRANSIENT_RETRIES && yielded == [] && waitedMs == TotalBackoff(attempt)
      invariant forall i :: 0 <= i < attempt ==> Silent(provider(i))
      decreases MAX_TRANSIENT_RETRIES - attempt
    {
      BackoffBound(attempt);
      var yieldedAny := false;
      var current := provider(attempt);
      for i := 0 to |current.chunks|
        invariant yielded == current.chunks[..i] && (yieldedAny <==> i > 0)
      {
        yieldedAny := true;
        yielded := yielded + [current.chunks[i]];
      }
      assert current.chunks[..|current.chunks|] == current.chunks;
      if current.error.None? || yieldedAny || attempt >= MAX_TRANSIENT_RETRIES || !Retryable(current.error.value) {
        return yielded, current.error, attempt + 1, waitedMs;
      }
      waitedMs := waitedMs + RETRY_BACKOFF_MS[attempt];
      attempt := attempt + 1;
    }
  }
}
