/**
 * The boundary to the Dropbox provider: which access token a request uses,
 * and how a failed provider call is classified. The provider itself is an
 * oracle: a function from (access token, path) to its reply.
 */
module StorageGateway {
  import opened Optionals
  import opened Responses
  import Strings
  import Records

  /** A provider reply: success (with the temporary link, for link requests)
      or a failure carrying the error's `status` and `error.error_summary`. */
  datatype Reply = Done(link: string) | Failed(status: Option<int>, summary: Option<string>)

  /** The provider, as seen from one request: (access token, path) to reply. */
  type Provider = (string, string) -> Reply

  /** A token that counts as present: non-null and non-empty. */
  predicate Present(token: Option<string>)
  {
    token.Some? && token.value != ""
  }

  /** `resolveDropboxToken(user)`: the user's own token, else the process-wide
      `DROPBOX_ACCESS_TOKEN`, else null. A missing user has no token. */
  function ResolveDropboxToken(user: Option<Records.User>, processToken: Option<string>): (r: Option<string>)
    ensures r.Some? ==> r.value != ""
    ensures user.Some? && Present(user.value.dropboxAccessToken) ==> r == user.value.dropboxAccessToken
    ensures !(user.Some? && Present(user.value.dropboxAccessToken)) ==> r == if Present(processToken) then processToken else None
  {
    if user.Some? && Present(user.value.dropboxAccessToken) then user.value.dropboxAccessToken
    else if Present(processToken) then processToken
    else None
  }

  /** No token is resolved exactly when neither source provides a non-empty one. */
  lemma NotConnectedIff(user: Option<Records.User>, processToken: Option<string>)
    ensures ResolveDropboxToken(user, processToken).None?
      <==> !(user.Some? && Present(user.value.dropboxAccessToken)) && !Present(processToken)
  {
  }

  datatype FailureKind = ExpiredCredential | ProviderError

  /** The error-summary marker of an expired token. */
  const ExpiredMarker := "expired_access_token"

  /** The message sent when the credential is classified as expired. */
  const TokenExpiredMessage := "Dropbox token expirat. Reconnecteaza Dropbox si reincearca."

  /** `dropboxError?.error?.error_summary || ""`. */
  function SummaryText(summary: Option<string>): string
  {
    if summary.Some? then summary.value else ""
  }

  /** The classification the upload and both download handlers apply to a failed call. */
  function Classify(status: Option<int>, summary: Option<string>): (k: FailureKind)
    ensures k == ExpiredCredential <==>
      status == Some(401) || exists i :: Strings.OccursAt(SummaryText(summary), ExpiredMarker, i)
  {
    Strings.IncludesIff(SummaryText(summary), ExpiredMarker);
    if status == Some(401) || Strings.Includes(SummaryText(summary), ExpiredMarker) then ExpiredCredential
    else ProviderError
  }

  /** A summary carrying the marker anywhere means an expired credential, whatever the status. */
  lemma MarkerMeansExpired(status: Option<int>, before: string, after: string)
    ensures Classify(status, Some(before + ExpiredMarker + after)) == ExpiredCredential
  {
    Strings.IncludesEmbedded(before, ExpiredMarker, after);
    Strings.IncludesIff(before + ExpiredMarker + after, ExpiredMarker);
  }

  /** Without a 401 and without a summary, the failure is passed through. */
  lemma NoSignalMeansProviderError(status: Option<int>)
    requires status != Some(401)
    ensures Classify(status, None) == ProviderError
  {
    assert SummaryText(None) == "";
  }

  /** What the handler answers for a failed call: 401 on an expired credential,
      otherwise the provider's error is rethrown to the generic error handler. */
  function FailureResponse(status: Option<int>, summary: Option<string>): (r: Status)
    ensures r.Unauthorized? <==> Classify(status, summary) == ExpiredCredential
    ensures r.Unauthorized? ==> r.message == TokenExpiredMessage
    ensures !r.Unauthorized? ==> r == Forwarded(status)
  {
    match Classify(status, summary)
    case ExpiredCredential => Unauthorized(TokenExpiredMessage)
    case ProviderError => Forwarded(status)
  }
}
