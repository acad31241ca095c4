/** The decision `main` takes after the prompts (index.js:112-125): a
    cancelled prompt session exits 0 without downloading; otherwise the
    download runs and the process exits 0 when it resolves and 1 when it
    rejects. */
module Cli {
  import opened Wrappers
  import Args
  import Prompts
  import opened Child

  /** The answers object of `prompts`: a field is missing when the user
      cancelled before answering it. */
  datatype Response = Response(url: Option<string>, outputPath: Option<string>)

  /** JavaScript truthiness of an answer: present and non-empty. */
  predicate Truthy(v: Option<string>) {
    v.Some? && v.value != ""
  }

  /** The cancellation test of index.js:115. */
  predicate Cancelled(response: Response)
    ensures !Cancelled(response) ==>
      && response.url.Some? && |response.url.value| > 0
      && response.outputPath.Some? && |response.outputPath.value| > 0
    ensures (response.url.Some? && |response.url.value| > 0
      && response.outputPath.Some? && |response.outputPath.value| > 0) ==> !Cancelled(response)
  {
    !Truthy(response.url) || !Truthy(response.outputPath)
  }

  /** What one run of `main` does: the argument vector `yt-dlp` is spawned
      with, if any, and the exit code, absent while the child has not yet
      reported. */
  datatype Outcome = Outcome(spawned: Option<seq<string>>, exitCode: Option<int>)

  function Main(join: (string, string) -> string, response: Response, events: seq<ChildEvent>): (o: Outcome)
    ensures Cancelled(response) <==> o.spawned.None?
    ensures Cancelled(response) ==> o.exitCode == Some(0)
    ensures !Cancelled(response) ==>
      o.spawned == Some(Args.BuildArgs(join, response.url.value, response.outputPath.value))
    ensures o.exitCode.None? <==> !Cancelled(response) && |events| == 0
    ensures o.exitCode == Some(1) <==> !Cancelled(response) && |events| > 0 && Handle(events[0]).Rejected?
    ensures o.exitCode.Some? ==> o.exitCode.value in {0, 1}
  {
    if Cancelled(response) then Outcome(None, Some(0))
    else
      var args := Args.BuildArgs(join, response.url.value, response.outputPath.value);
      FirstEventDecides(events);
      match Run(Pending, events)
      case Pending => Outcome(Some(args), None)
      case Settled(Resolved) => Outcome(Some(args), Some(0))
      case Settled(Rejected(_)) => Outcome(Some(args), Some(1))
  }

  /** Answers both validators accepted always lead to a download with the
      URL as given. */
  lemma ValidatedAnswersDownload(join: (string, string) -> string, url: string, outputPath: string, events: seq<ChildEvent>)
    requires Prompts.ValidateUrl(url) == Prompts.Accept
    requires Prompts.ValidateDestination(outputPath) == Prompts.Accept
    ensures var o := Main(join, Response(Some(url), Some(outputPath)), events);
      && o.spawned.Some?
      && url in o.spawned.value
      && (Args.NoPlaylist in o.spawned.value[7..] <==> !Args.IsPlaylistUrl(url))
  {
    Args.UrlIsKept(join, url, outputPath);
    Prompts.AcceptedUrlIsNotAnOption(url);
    var r := Args.BuildArgs(join, url, outputPath);
    assert r[7..] == [r[7], r[8]];
  }

  /** A missing `yt-dlp` ends every non-cancelled run with exit code 1. */
  lemma MissingToolExitsOne(join: (string, string) -> string, response: Response, message: string, later: seq<ChildEvent>)
    requires !Cancelled(response)
    ensures Main(join, response, [SpawnError(JsError(Some(Enoent), message))] + later).exitCode == Some(1)
  {
  }

  /** A zero close code ends a non-cancelled run with exit code 0. */
  lemma CleanCloseExitsZero(join: (string, string) -> string, response: Response, later: seq<ChildEvent>)
    requires !Cancelled(response)
    ensures Main(join, response, [Close(Some(0))] + later).exitCode == Some(0)
  {
  }
}
