/** `ErrorMessageService`: maps an exception's code to the text shown to the user. */
module ErrorMessages {
  import opened Errors

  /** The codes that have a fixed user-facing text; `Unknown` falls through to the default. */
  predicate HasFixedMessage(c: ErrorCode) { !c.Unknown? }

  function FixedMessage(c: ErrorCode): string
    requires HasFixedMessage(c)
  {
    match c
    case InvalidImageId => "The wallpaper ID is invalid. Please check the link and try again."
    case NetworkError => "Unable to connect to the internet. Please check your connection and try again."
    case ApiError => "The wallpaper service is currently unavailable. Please try again later."
    case DownloadFailed => "Failed to download the wallpaper. Please try again."
    case InvalidImage => "The wallpaper file is invalid or corrupted. Please try a different image."
    case FileTooLarge => "The wallpaper file is too large. Maximum size is 50 MB."
    case Timeout => "The operation timed out. Please check your internet connection and try again."
    case CacheError => "Failed to save the wallpaper to cache. Please check available disk space."
    case ConfigurationError => "Configuration error. Please check application settings."
    case SystemApiError => "Failed to set the wallpaper. This may be a Windows permissions issue."
  }

  const UnexpectedPrefix: string := "An unexpected error occurred: "

  /** `GetUserFriendlyMessage`. */
  function UserFriendlyMessage(ex: Fault): (m: string)
    ensures HasFixedMessage(ex.code) ==> m == FixedMessage(ex.code)
    ensures ex.code.Unknown? ==> m == UnexpectedPrefix + ex.message
  {
    if HasFixedMessage(ex.code) then FixedMessage(ex.code) else UnexpectedPrefix + ex.message
  }

  /** `GetRecoverySuggestion`: empty for the codes the switch does not name. */
  function RecoverySuggestion(c: ErrorCode): (s: string)
  {
    match c
    case NetworkError => "Check your internet connection and firewall settings."
    case ApiError => "Wait a few minutes and try again. If the problem persists, the service may be down."
    case DownloadFailed => "Try a different wallpaper or check your internet connection."
    case FileTooLarge => "Contact the wallpaper provider about file size limits."
    case Timeout => "Try again with a faster internet connection or a smaller image."
    case CacheError => "Free up disk space or change the cache location in settings."
    case SystemApiError => "Try running the application as administrator or check Windows permissions."
    case _ => ""
  }

  const SuggestionSeparator: string := "\n\nSuggestion: "

  /** The message with a suggestion appended, unless the suggestion is empty. */
  function WithSuggestion(baseMessage: string, suggestion: string): (m: string)
    ensures baseMessage <= m
    ensures suggestion == [] <==> m == baseMessage
    ensures suggestion != [] ==> m[|baseMessage|..] == SuggestionSeparator + suggestion
  {
    if suggestion == [] then baseMessage else baseMessage + SuggestionSeparator + suggestion
  }

  /** `GetDetailedMessage`: the friendly message, followed by the suggestion when there is one. */
  function DetailedMessage(ex: Fault): string
  {
    WithSuggestion(UserFriendlyMessage(ex), RecoverySuggestion(ex.code))
  }

  /** The four codes the suggestion switch does not name get no suggestion. */
  lemma NoSuggestionFor(c: ErrorCode)
    requires c == InvalidImageId || c == InvalidImage || c == ConfigurationError || c == Unknown
    ensures RecoverySuggestion(c) == []
    ensures forall ex: Fault :: ex.code == c ==> DetailedMessage(ex) == UserFriendlyMessage(ex)
  {
  }

  /** The codes raised while fetching bytes all come with a suggestion. */
  lemma TransferCodesSuggest(c: ErrorCode)
    requires c == NetworkError || c == DownloadFailed || c == Timeout || c == FileTooLarge
    ensures RecoverySuggestion(c) != []
  {
    match c
    case NetworkError =>
    case DownloadFailed =>
    case Timeout =>
    case FileTooLarge =>
  }

  /** The codes raised by the service, the cache and Windows all come with a suggestion. */
  lemma ServiceCodesSuggest(c: ErrorCode)
    requires c == ApiError || c == CacheError || c == SystemApiError
    ensures RecoverySuggestion(c) != []
  {
    match c
    case ApiError =>
    case CacheError =>
    case SystemApiError =>
  }

  /** A message with a fixed text does not depend on the exception's own message or context. */
  lemma FixedMessageIgnoresDetails(a: Fault, b: Fault)
    requires a.code == b.code && HasFixedMessage(a.code)
    ensures UserFriendlyMessage(a) == UserFriendlyMessage(b)
    ensures DetailedMessage(a) == DetailedMessage(b)
  {
  }
}
