/** How XRPC failures are classified (atproto/errors.py). */
module Errors {
  import opened Common

  datatype XrpcError = XrpcError(status: int, kind: string, retryAfter: Option<real>) {
    predicate IsExpiredToken() {
      kind == "ExpiredToken"
    }

    predicate IsInvalidToken() {
      kind == "InvalidToken" || kind == "AuthMissing" || status == 401
    }

    predicate IsRateLimited() {
      status == 429 || kind == "RateLimitExceeded"
    }

    predicate IsRetryable() {
      status >= 500 || IsRateLimited() || status == 408
    }

    /** The token was refused: the client renews the session and tries once more. */
    predicate IsAuth() {
      IsExpiredToken() || IsInvalidToken()
    }
  }

  // What a request ends in: a response other than 2xx, or no response at all.
  datatype Failure = Xrpc(error: XrpcError) | Network

  /** Worth sending again unchanged. */
  predicate Retryable(f: Failure) {
    f.Network? || f.error.IsRetryable()
  }
}
