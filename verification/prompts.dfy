/** The `validate` callbacks of the two prompts in `main` (index.js:94-98,
    105-108). Each returns `true` or the message the prompt shows before
    asking again. */
module Prompts {
  import opened YouTubeUrl

  const UrlRequired := "URL is required"
  const UrlInvalid := "Please enter a valid YouTube URL"
  const DestinationRequired := "Destination folder is required"

  /** A callback's answer: `true`, or a message string. */
  datatype Verdict = Accept | Reject(message: string)

  /** The URL prompt's check: empty first, then the pattern. Since the
      pattern never matches the empty string, acceptance is exactly the
      pattern. */
  function ValidateUrl(value: string): (v: Verdict)
    ensures v == Reject(UrlRequired) <==> value == ""
    ensures v == Reject(UrlInvalid) <==> value != "" && !IsValidYouTubeUrl(value)
    ensures v == Accept <==> IsValidYouTubeUrl(value)
  {
    if value == "" then Reject(UrlRequired)
    else if !IsValidYouTubeUrl(value) then Reject(UrlInvalid)
    else Accept
  }

  /** The destination prompt's check: only the empty string is refused. */
  function ValidateDestination(value: string): (v: Verdict)
    ensures v.Reject? <==> value == ""
    ensures v.Reject? ==> v.message == DestinationRequired
  {
    if value == "" then Reject(DestinationRequired) else Accept
  }

  /** The URL prompt accepts exactly the strings that split into scheme,
      `www.`, host, `/`, a non-line-terminator and any rest. */
  lemma UrlAcceptedIffSplit(value: string)
    ensures ValidateUrl(value) == Accept <==> SplitSpec(value)
  {
    ValidIffSplit(value);
  }

  /** An accepted URL starts with a letter, never with the dash of an option. */
  lemma AcceptedUrlIsNotAnOption(value: string)
    requires ValidateUrl(value) == Accept
    ensures |value| > 0 && value[0] != '-'
  {
    ValidUrlFirstChar(value);
  }
}
