/** How a failed restore is classified from the text of its error:
    `RestoreManager.is_5xx_error` and the "already exists" test of
    `restore_item`. */
module Classify {
  import opened Text

  /** What the restore call returned: success, or the text of the exception
      it raised (`str(e)`). */
  datatype RestoreResult = Restored | Failed(message: string)

  /** The error texts that mark a server-side (5xx or throttling) failure. */
  const ServerErrorPatterns: seq<string> := [
    "500 Server Error",
    "502 Bad Gateway",
    "503 Service Unavailable",
    "504 Gateway Timeout",
    "ServerBusy",
    "ThrottlingError"
  ]

  /** The error text of a path that is already restored. */
  const ConflictMarker: string := "BlobAlreadyExists"

  /** Python's `any(pattern in text for pattern in patterns)`. */
  predicate AnyPatternIn(patterns: seq<string>, text: string) {
    |patterns| > 0 && (Contains(text, patterns[0]) || AnyPatternIn(patterns[1..], text))
  }

  lemma {:induction false} AnyPatternInIff(patterns: seq<string>, text: string)
    ensures AnyPatternIn(patterns, text) <==> exists k :: 0 <= k < |patterns| && Contains(text, patterns[k])
  {
    if |patterns| > 0 {
      AnyPatternInIff(patterns[1..], text);
      if exists k :: 0 <= k < |patterns| && Contains(text, patterns[k]) {
        var k :| 0 <= k < |patterns| && Contains(text, patterns[k]);
        if k > 0 {
          assert patterns[1..][k - 1] == patterns[k];
        }
      }
    }
  }

  /** `is_5xx_error(text)`. */
  predicate IsServerError(text: string) {
    AnyPatternIn(ServerErrorPatterns, text)
  }

  /** An error text is server-side exactly when one of the six patterns
      occurs in it. */
  lemma IsServerErrorIff(text: string)
    ensures IsServerError(text) <==>
      exists k :: 0 <= k < |ServerErrorPatterns| && exists i :: OccursAt(text, ServerErrorPatterns[k], i)
  {
    AnyPatternInIff(ServerErrorPatterns, text);
    forall k | 0 <= k < |ServerErrorPatterns|
      ensures Contains(text, ServerErrorPatterns[k]) <==> exists i :: OccursAt(text, ServerErrorPatterns[k], i)
    {
      ContainsIffOccurs(text, ServerErrorPatterns[k]);
    }
  }

  /** `"BlobAlreadyExists" in error_str`. */
  predicate IsConflict(text: string) {
    Contains(text, ConflictMarker)
  }

  /** The error taxonomy of a single restore. */
  datatype OutcomeKind = Success | Conflict | ServerFailure | OtherFailure

  /** `restore_item`'s decision: success, then the conflict test, then the
      5xx test, in that order. */
  function Kind(r: RestoreResult): (k: OutcomeKind)
    ensures k == Success <==> r.Restored?
    ensures k == Conflict <==> r.Failed? && IsConflict(r.message)
    ensures k == ServerFailure <==> r.Failed? && !IsConflict(r.message) && IsServerError(r.message)
  {
    match r
    case Restored => Success
    case Failed(m) =>
      if IsConflict(m) then Conflict
      else if IsServerError(m) then ServerFailure
      else OtherFailure
  }

  /** A text carrying any one of the six 5xx patterns and not the conflict
      marker is a server-side failure. */
  lemma ServerFailureKind(m: string, k: nat)
    requires k < |ServerErrorPatterns| && Contains(m, ServerErrorPatterns[k])
    requires !IsConflict(m)
    ensures Kind(Failed(m)) == ServerFailure
  {
    AnyPatternInIff(ServerErrorPatterns, m);
  }

  /** A 503 response is server-side. */
  lemma ServerErrorExample()
    ensures Kind(Failed("503 Service Unavailable")) == ServerFailure
  {
    var m := "503 Service Unavailable";
    assert OccursAt(m, ServerErrorPatterns[2], 0);
    ContainsIffOccurs(m, ServerErrorPatterns[2]);
    assert !IsConflict(m) by {
      ContainsFirstChar(m, ConflictMarker);
      assert ConflictMarker[0] == 'B' && 'B' !in m;
    }
    ServerFailureKind(m, 2);
  }

  /** A conflict text is benign even when it also carries a 5xx pattern,
      because the conflict test comes first. */
  lemma ConflictExample()
    ensures Kind(Failed("BlobAlreadyExists; 503 Service Unavailable")) == Conflict
  {
    var c := "BlobAlreadyExists; 503 Service Unavailable";
    assert OccursAt(c, ConflictMarker, 0);
    ContainsIffOccurs(c, ConflictMarker);
  }
}
