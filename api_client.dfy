/** `ApiClient`: asks the catalogue for an image's details, retrying failed requests, and turns
    the JSON answer into an `ImageDetails` or a `WallpaperException`. Each request's outcome is a
    given `Exchange`, looked up by URL and attempt number; waits are recorded only. */
module Api {
  import opened Wrappers
  import opened Errors
  import opened Json
  import Http
  import Validation
  import Paths
  import Retry
  import Text

  const ApiBaseUrl: string := "https://aiwp.me/api/"

  /** The details endpoint for an image id. */
  function DetailsUrl(imageId: string): string {
    ApiBaseUrl + "images/" + imageId + ".json"
  }

  /** One `GetAsync`: it throws, or a response arrives with its status, the name `HttpStatusCode`
      prints for it, and what its body parses to. */
  datatype Exchange =
    | Failed(error: Exception)
    | Answered(status: int, statusName: string, body: Document)

  /** The model the client returns. */
  datatype ImageDetails = ImageDetails(imageId: string, imageUrl: string, thumbnailUrl: string, fileSize: int, format: string)

  /** The outcomes the retry policy handles: a non-success status or an `HttpRequestException`. */
  predicate Retryable(x: Exchange) {
    match x
    case Failed(e) => e.HttpRequestException?
    case Answered(status, _, _) => !Http.IsSuccessStatusCode(status)
  }

  /** The catch clauses of `GetImageDetailsAsync`. */
  function Caught(e: Exception, imageId: string): (f: Fault)
    ensures e.Raised? ==> f == e.fault
    ensures e.TaskCanceledException? ==> f.code == Timeout
    ensures e.HttpRequestException? ==> f.code == NetworkError
    ensures e.JsonException? ==> f.code == ApiError
    ensures e.OtherException? ==> f.code == Unknown
    ensures !e.Raised? ==> f.context == map["ImageId" := Text(imageId)]
  {
    var context := map["ImageId" := Text(imageId)];
    match e
    case TaskCanceledException(_) => Fault(Timeout, "API request timed out", context)
    case HttpRequestException => Fault(NetworkError, "Network error while accessing API", context)
    case JsonException => Fault(ApiError, "Invalid JSON response from API", context)
    case Raised(f) => f
    case OtherException => Fault(Unknown, "An unexpected error occurred", context)
  }

  function InvalidId(imageId: string): Fault {
    Fault(InvalidImageId, "Invalid image ID: " + imageId, map["ImageId" := Text(imageId)])
  }

  function StatusError(imageId: string, status: int, statusName: string): Fault {
    Fault(ApiError, "API returned status code: " + statusName,
          map["StatusCode" := Number(status), "ImageId" := Text(imageId)])
  }

  function NoUrl(imageId: string): Fault {
    Fault(ApiError, "No valid image URL found in API response", map["ImageId" := Text(imageId)])
  }

  function UntrustedUrl(imageId: string, url: string): Fault {
    Fault(ApiError, "API returned an invalid or untrusted URL", map["ImageId" := Text(imageId), "Url" := Text(url)])
  }

  /** The faults above are the ones the source builds by chaining `WithContext`. */
  lemma FaultsAsChained(imageId: string, status: int, statusName: string, url: string)
    ensures InvalidId(imageId) == NewFault(InvalidImageId, "Invalid image ID: " + imageId).WithContext("ImageId", Text(imageId))
    ensures StatusError(imageId, status, statusName)
            == NewFault(ApiError, "API returned status code: " + statusName)
                 .WithContext("StatusCode", Number(status)).WithContext("ImageId", Text(imageId))
    ensures UntrustedUrl(imageId, url)
            == NewFault(ApiError, "API returned an invalid or untrusted URL")
                 .WithContext("ImageId", Text(imageId)).WithContext("Url", Text(url))
  {
  }

  /** `Path.GetExtension(url).TrimStart('.')`. */
  function Format(url: string): string {
    Text.TrimStart(Paths.GetExtension(url), '.')
  }

  /** The format is the URL's extension without its dot, or empty when it has none. */
  lemma FormatIsExtension(url: string)
    ensures Format(url) == if Paths.GetExtension(url) == [] then [] else Paths.GetExtension(url)[1..]
  {
    var ext := Paths.GetExtension(url);
    if ext != [] {
      assert ext == [ext[0]] + ext[1..];
      if ext[1..] != [] {
        assert ext[1..][0] != '.';
      }
    }
  }

  /** The `try` block once the policy has handed back the outcome `x` of the final attempt. */
  function Interpret(imageId: string, parse: string -> Option<Validation.Uri>, x: Exchange): Result<ImageDetails, Fault> {
    match x
    case Failed(e) => Failure(Caught(e, imageId))
    case Answered(status, statusName, body) =>
      if !Http.IsSuccessStatusCode(status) then Failure(StatusError(imageId, status, statusName))
      else match UrlProperty(body)
        case Failure(e) => Failure(Caught(e, imageId))
        case Success(url) =>
          if url.None? || url.value == [] then Failure(NoUrl(imageId))
          else if !Validation.IsValidImageUrl(url.value, parse) then Failure(UntrustedUrl(imageId, url.value))
          else Success(ImageDetails(imageId, url.value, "", 0, Format(url.value)))
  }

  /** `d` is what a successful answer `x` yields: the input id, the trusted non-empty URL of the
      body's first URL property, that URL's extension without its dot as the format, and the
      defaults for the thumbnail URL and the size. */
  predicate AnsweredWith(imageId: string, parse: string -> Option<Validation.Uri>, x: Exchange, d: ImageDetails) {
    d.imageId == imageId
    && x.Answered? && Http.IsSuccessStatusCode(x.status) && UrlProperty(x.body) == Success(Some(d.imageUrl))
    && d.imageUrl != [] && Validation.IsValidImageUrl(d.imageUrl, parse)
    && d.format == (if Paths.GetExtension(d.imageUrl) == [] then [] else Paths.GetExtension(d.imageUrl)[1..])
    && d.thumbnailUrl == [] && d.fileSize == 0
  }

  /** What a successful interpretation means. */
  lemma InterpretSuccess(imageId: string, parse: string -> Option<Validation.Uri>, x: Exchange)
    requires Interpret(imageId, parse, x).Success?
    ensures AnsweredWith(imageId, parse, x, Interpret(imageId, parse, x).value)
  {
    var url := UrlProperty(x.body).value.value;
    assert Interpret(imageId, parse, x) == Success(ImageDetails(imageId, url, "", 0, Format(url)));
    FormatIsExtension(url);
  }

  /** The outcomes of the requests for the details of `imageId`, by attempt number. */
  function Exchanges(network: (string, nat) -> Exchange, imageId: string): nat -> Exchange {
    (k: nat) => network(DetailsUrl(imageId), k)
  }

  function RetriedAt(network: (string, nat) -> Exchange, imageId: string): nat -> bool {
    (k: nat) => Retryable(network(DetailsUrl(imageId), k))
  }

  class ApiClient {
    /** `Uri.TryCreate`, as `IsValidImageUrl` uses it. */
    const parse: string -> Option<Validation.Uri>
    /** `MaxRetries` of the settings. */
    const maxRetries: nat
    /** The timeout the constructor gives the HTTP client, in seconds. */
    const timeoutSeconds: int

    constructor(parse: string -> Option<Validation.Uri>, maxRetries: nat, apiTimeoutSeconds: int)
      ensures this.parse == parse && this.maxRetries == maxRetries && timeoutSeconds == apiTimeoutSeconds
    {
      this.parse := parse;
      this.maxRetries := maxRetries;
      timeoutSeconds := apiTimeoutSeconds;
    }

    /** The attempt whose outcome the policy hands back. */
    function FinalTry(network: (string, nat) -> Exchange, imageId: string): nat {
      Retry.FinalAttempt(maxRetries, RetriedAt(network, imageId))
    }

    /** `GetImageDetailsAsync` against `network`: the details or the exception, and the number of
        requests made. */
    function Planned(imageId: string, network: (string, nat) -> Exchange): (Result<ImageDetails, Fault>, nat) {
      if !Validation.IsValidImageIdAsWritten(imageId) then (Failure(InvalidId(imageId)), 0)
      else
        var k := FinalTry(network, imageId);
        (Interpret(imageId, parse, network(DetailsUrl(imageId), k)), k + 1)
    }

    /** An invalid id is refused before any request. */
    lemma InvalidIdNoRequest(imageId: string, network: (string, nat) -> Exchange)
      requires !Validation.IsValidImageIdAsWritten(imageId)
      ensures Planned(imageId, network).1 == 0
      ensures Planned(imageId, network).0.Failure? && Planned(imageId, network).0.error.code == InvalidImageId
    {
    }

    /** Every request but the last was retried because it failed in a way the policy handles;
        the last one is either the last allowed or one the policy does not handle. */
    lemma RetriesOnlyHandled(imageId: string, network: (string, nat) -> Exchange)
      requires Validation.IsValidImageIdAsWritten(imageId)
      ensures var n := Planned(imageId, network).1;
        1 <= n <= maxRetries + 1
        && (forall k :: 0 <= k < n - 1 ==> Retryable(network(DetailsUrl(imageId), k)))
        && (n <= maxRetries ==> !Retryable(network(DetailsUrl(imageId), n - 1)))
    {
      var handled := RetriedAt(network, imageId);
      var n := Planned(imageId, network).1;
      forall k | 0 <= k < n - 1
        ensures Retryable(network(DetailsUrl(imageId), k))
      {
        assert handled(k);
      }
      assert n <= maxRetries ==> !handled(n - 1);
    }

    /** A timeout on the first request is not retried and surfaces as `Timeout`. */
    lemma TimeoutNotRetried(imageId: string, network: (string, nat) -> Exchange)
      requires Validation.IsValidImageIdAsWritten(imageId)
      requires network(DetailsUrl(imageId), 0).Failed? && network(DetailsUrl(imageId), 0).error.TaskCanceledException?
      ensures Planned(imageId, network).1 == 1
      ensures Planned(imageId, network).0.Failure? && Planned(imageId, network).0.error.code == Timeout
    {
      Retry.UnhandledNotRetried(maxRetries, RetriedAt(network, imageId));
    }

    /** A server that keeps answering with a failure status is asked `MaxRetries + 1` times, and
        the last status surfaces as `ApiError` with its code in the context. */
    lemma FailingStatusExhaustsRetries(imageId: string, network: (string, nat) -> Exchange)
      requires Validation.IsValidImageIdAsWritten(imageId)
      requires forall k :: Retryable(network(DetailsUrl(imageId), k)) && network(DetailsUrl(imageId), k).Answered?
      ensures Planned(imageId, network).1 == maxRetries + 1
      ensures var x := network(DetailsUrl(imageId), maxRetries);
        Planned(imageId, network).0 == Failure(StatusError(imageId, x.status, x.statusName))
      ensures Planned(imageId, network).0.error.code == ApiError
      ensures Planned(imageId, network).0.error.context["StatusCode"] == Number(network(DetailsUrl(imageId), maxRetries).status)
    {
      var handled := RetriedAt(network, imageId);
      var k := FinalTry(network, imageId);
      assert handled(k);
    }

    /** A transport failure on every request surfaces as `NetworkError` after `MaxRetries + 1`
        requests. */
    lemma NetworkFailureExhaustsRetries(imageId: string, network: (string, nat) -> Exchange)
      requires Validation.IsValidImageIdAsWritten(imageId)
      requires forall k :: network(DetailsUrl(imageId), k) == Failed(HttpRequestException)
      ensures Planned(imageId, network).1 == maxRetries + 1
      ensures Planned(imageId, network).0.Failure? && Planned(imageId, network).0.error.code == NetworkError
    {
      var handled := RetriedAt(network, imageId);
      var k := FinalTry(network, imageId);
      assert handled(k);
    }

    /** Details are returned only for a valid id and a trusted, non-empty URL taken from the
        first URL property of a successful answer; the format is the URL's extension without its
        dot, and the thumbnail URL and size keep their defaults. */
    lemma SuccessDetails(imageId: string, network: (string, nat) -> Exchange)
      requires Planned(imageId, network).0.Success?
      ensures Validation.IsValidImageIdAsWritten(imageId)
      ensures var x := network(DetailsUrl(imageId), Planned(imageId, network).1 - 1);
        AnsweredWith(imageId, parse, x, Planned(imageId, network).0.value)
    {
      assert Validation.IsValidImageIdAsWritten(imageId);
      var x := network(DetailsUrl(imageId), FinalTry(network, imageId));
      assert Planned(imageId, network) == (Interpret(imageId, parse, x), FinalTry(network, imageId) + 1);
      InterpretSuccess(imageId, parse, x);
    }

    /** A successful answer without a usable URL, or with one `IsValidImageUrl` rejects, is an
        `ApiError`. */
    lemma BadUrlIsApiError(imageId: string, network: (string, nat) -> Exchange)
      requires Validation.IsValidImageIdAsWritten(imageId)
      requires var x := network(DetailsUrl(imageId), FinalTry(network, imageId));
        x.Answered? && Http.IsSuccessStatusCode(x.status) && UrlProperty(x.body).Success?
        && (UrlProperty(x.body).value.Some? ==>
              UrlProperty(x.body).value.value == [] || !Validation.IsValidImageUrl(UrlProperty(x.body).value.value, parse))
      ensures Planned(imageId, network).0.Failure? && Planned(imageId, network).0.error.code == ApiError
    {
    }

    /** `GetImageDetailsAsync`. */
    method GetImageDetails(imageId: string, network: (string, nat) -> Exchange)
      returns (result: Result<ImageDetails, Fault>, tries: nat, delays: seq<nat>)
      ensures (result, tries) == Planned(imageId, network)
      ensures delays == if tries == 0 then [] else Retry.Delays(tries - 1)
    {
      if !Validation.IsValidImageIdAsWritten(imageId) {
        return Failure(InvalidId(imageId)), 0, [];
      }
      var response;
      response, tries, delays := Retry.Execute(maxRetries, Exchanges(network, imageId), RetriedAt(network, imageId));
      result := Interpret(imageId, parse, response);
    }
  }
}
