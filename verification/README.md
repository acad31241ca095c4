# ytdl — a Dafny model of the YouTube-to-MP3 command-line front end

`ytdl` asks for a YouTube URL and a destination folder. It then runs `yt-dlp`
to fetch the audio and convert it to MP3. This project models the
deterministic logic of `index.js` as pure Dafny functions and proves
properties of them:

- the `yt-dlp` argument vector and its playlist override (`Args`);
- the loose YouTube URL pattern, written as a hand-made matcher and proved
  equal to an explicit "the string splits into these pieces" reading
  (`YouTubeUrl`);
- the two prompt `validate` callbacks (`Prompts`);
- how the download promise settles from the child's `close`/`error` events
  (`Child`);
- `main`'s cancel / exit-code decision (`Cli`).

The supporting modules are `Text`, `Decimal` and `Wrappers`. `Text` models
the JavaScript built-ins the code calls (`includes`, `indexOf`, `splice`).
`Decimal` models how an exit code is written into a message. `Wrappers`
holds `Option`, which stands for `undefined`/`null`.

`path.join` is a function parameter `join` of `BuildArgs`. Nothing is
assumed about it: the shape of the arguments holds whatever `join` returns.
Only `Args.SpliceFindsFlagAtSeven` and `Args.ExactlyOneFlag` need the joined
path not to be a flag token. `Args.JoinedPathIsNotAFlag` records why Node's
`path.join` meets that condition: its result ends with the file-name
template, which is longer than either flag.

The program offers only audio extraction. There is no video format and no
combined "both" mode in the code, so neither is modelled.

## Model

| member | source | states |
|---|---|---|
| Args.InitialArgs | index.js:21-28 | the array literal: 9 tokens, the six audio options, the joined path at 6, `--no-playlist` at 7 and the URL at 8 |
| Args.IsPlaylistUrl | index.js:31 | playlist mode holds iff `playlist` or `&list=` occurs somewhere in the URL |
| Args.BuildArgs | index.js:21-34 | always 9 tokens starting with the six audio options; a non-playlist URL gives exactly `-x --audio-format mp3 --audio-quality 0 -o <join> --no-playlist <url>`; a playlist URL gives the first seven tokens unchanged, then the URL, then `--yes-playlist`, whatever `join` returns |
| Args.PlaylistOverrideShape | index.js:31-34 | on any initial array with the six audio options and `--no-playlist` at index 7, the override gives exactly the first seven tokens, the old last token, then `--yes-playlist`, also when index 6 holds the flag and the splice removes that copy |
| Args.ArgsShape | index.js:21-34 | for every `join`, the arguments are the audio options, the joined path, then `--no-playlist`, URL (single mode) or URL, `--yes-playlist` (playlist mode) |
| Args.SpliceFindsFlagAtSeven | index.js:26-32 | `indexOf('--no-playlist')` on the initial array is 7, the slot just before the URL, so the splice removes the flag and never the URL |
| Args.JoinedPathIsNotAFlag | index.js:25 | a joined path that ends with the output template is never a mode flag token |
| Args.ExactlyOneFlag | index.js:26-34 | `--no-playlist` is present iff the URL is not a playlist URL and `--yes-playlist` iff it is; the single flag sits at index 7 or 8 and no other token is a flag |
| Args.UrlIsKept | index.js:27-34 | the URL is always passed: last in single mode, just before `--yes-playlist` in playlist mode |
| Args.ModeIgnoresOutputPath | index.js:25-34 | two destinations give the same tokens except the output path at index 6, so the mode depends only on the URL |
| Args.QueryListHasNoAmpersandList | index.js:31 | `https://youtube.com/watch?list=X` does not contain `&list=` |
| Args.QueryListHasNoPlaylist | index.js:31 | `https://youtube.com/watch?list=X` does not contain `playlist` |
| Args.QueryListAloneIsSingle | index.js:31 | `?list=` without `&` does not turn on playlist mode |
| Args.AmpersandListIsPlaylist | index.js:31 | `&list=` in a watch URL turns on playlist mode |
| Args.PlaylistPathIsPlaylist | index.js:31 | a `/playlist?list=` URL turns on playlist mode |
| Text.Includes | index.js:31 | `s.includes(sub)` holds iff `sub` occurs in `s` at some index |
| Text.NotIncludedByChar | index.js:31 | if no candidate position holds the needed character, the substring does not occur |
| Text.IndexOf | index.js:32 | `indexOf` gives -1 iff the element is absent, otherwise the index of its first occurrence |
| Text.RemoveOne | index.js:32 | `splice(start, 1)` drops at most the element at the normalised start and keeps every other element in order |
| YouTubeUrl.IsValidYouTubeUrl | index.js:72-75 | the hand-written matcher of the pattern; every string it accepts has at least 10 characters (`youtu.be/x` is the shortest) |
| YouTubeUrl.ValidIffSplit | index.js:72-75 | the matcher accepts `s` iff `s` = scheme (none, `http://`, `https://`) + optional `www.` + `youtube.com` or `youtu.be` + `/` + one non-line-terminator character + any rest |
| YouTubeUrl.MatchImpliesSplit | index.js:73 | every string the matcher accepts splits into those pieces |
| YouTubeUrl.SplitImpliesMatch | index.js:73 | every string that splits into those pieces is accepted |
| YouTubeUrl.MatchOfComposed | index.js:73 | any choice of scheme, `www.`, host, `.`-character and rest composes to an accepted URL |
| YouTubeUrl.AcceptsWatchUrl | index.js:73 | `https://www.youtube.com/watch?v=abc123` is accepted |
| YouTubeUrl.AcceptsShortLink | index.js:73 | `youtu.be/x` is accepted |
| YouTubeUrl.RefusesEmptyPath | index.js:73 | `youtube.com/` is refused, because `.+` needs a character |
| YouTubeUrl.RefusesOtherHost | index.js:73 | `https://m.youtube.com/x` is refused |
| YouTubeUrl.RefusesLineBreakPath | index.js:73 | a line feed right after the slash is refused |
| YouTubeUrl.ValidUrlFirstChar | index.js:73 | an accepted URL is non-empty and starts with `h`, `w` or `y` |
| Prompts.ValidateUrl | index.js:94-98 | `URL is required` iff the value is empty; `Please enter a valid YouTube URL` iff it is non-empty and fails the pattern; `true` iff it matches the pattern |
| Prompts.ValidateDestination | index.js:105-108 | refused, with `Destination folder is required`, iff the value is empty |
| Prompts.UrlAcceptedIffSplit | index.js:94-98 | the URL prompt accepts exactly the strings of the split reading |
| Prompts.AcceptedUrlIsNotAnOption | index.js:94-98 | an accepted URL never starts with `-`, so `yt-dlp` cannot read it as an option |
| Child.CodeText | index.js:53 | the text `${code}` gives a close code: `null` exactly for a missing code, otherwise integer text that parses back to the code |
| Child.OnClose | index.js:48-55 | the promise resolves iff the close code is 0; otherwise it rejects with a message starting `yt-dlp exited with code ` |
| Child.ExitCodeSevenMessage | index.js:53 | a close with code 7 rejects with exactly `yt-dlp exited with code 7` |
| Child.CloseMessageCarriesCode | index.js:53 | reading the text after the prefix of a nonzero-close message gives back the code |
| Child.OnCloseInjective | index.js:48-55 | distinct close codes, `null` included, give distinct settlements |
| Child.OnError | index.js:57-63 | a spawn error always rejects: with the installation hint when its code is `ENOENT`, otherwise with the error unchanged |
| Child.InstallHintOnlyFromEnoent | index.js:48-63 | the installation hint comes only from an `ENOENT` spawn error (or an error already carrying it), never from a close code |
| Child.Handle | index.js:48-63 | dispatch of an event to the `close` or `error` listener; the result is a resolve exactly for a close with code 0 |
| Child.Run | index.js:48-63 | the promise state after a sequence of events: unchanged by no events, settled after at least one |
| Child.Step | index.js:48-63 | a settled promise ignores later `resolve`/`reject` calls, and any event settles a pending one |
| Child.SettledIsFinal | index.js:48-63 | after settling, no sequence of later events changes the outcome |
| Child.FirstEventDecides | index.js:48-63 | the first child event alone decides the outcome; with no event the promise stays pending |
| Decimal.IntToString | index.js:53 | the decimal text of an integer: optional minus then digits, with a minus exactly for negative values and no leading zero except for 0 itself |
| Decimal.IntRoundTrip | index.js:53 | the decimal text of an exit code parses back to the same integer |
| Decimal.IntToStringInjective | index.js:53 | distinct integers have distinct decimal texts |
| Cli.Cancelled | index.js:115 | the cancellation test: it is false exactly when both answers are present and non-empty |
| Cli.Main | index.js:112-125 | a response with a missing or empty answer spawns nothing and exits 0; otherwise `yt-dlp` is spawned with `BuildArgs(url, outputPath)`; the exit code is 1 iff the first child event rejects, 0 iff it resolves, and absent while no event has arrived |
| Cli.ValidatedAnswersDownload | index.js:94-120 | answers both validators accepted always start a download that passes the URL, and `--no-playlist` is among its last two tokens iff the URL is not a playlist URL |
| Cli.MissingToolExitsOne | index.js:57-59 | when `yt-dlp` cannot be found, a non-cancelled run exits 1 whatever events follow |
| Cli.CleanCloseExitsZero | index.js:48-51 | a first close with code 0 makes a non-cancelled run exit 0 |

## Left out

- Spawning `yt-dlp` and relaying its stdout/stderr (index.js:38-46) are process I/O. The child is represented only by the sequence of events it delivers.
- The directory check and `mkdirSync` (index.js:17-19) are filesystem effects with no result the model could observe. A `mkdirSync` that throws, which would reject the promise, is not modelled.
- `path.join` is a foreign library function. It is the parameter `join`, and its normalisation and separators are not modelled. A destination `./downloads` therefore yields whatever `join` returns, which in Node is `downloads/<template>` after normalisation.
- The `prompts` library is not modelled: its re-asking loop, its rendering, the `./downloads` initial value, and how Ctrl+C produces a partial answers object. Only the answers object it returns and the two `validate` callbacks are modelled.
- Console banners and messages (index.js:36, 50, 81-86, 116, 123) are output only. `process.exit` is represented by the `exitCode` of `Cli.Main`.
- An exception thrown by `prompts` itself, which `main` would also turn into exit 1, is not modelled.
- Decimal.IntRoundTrip: JavaScript writes numbers of magnitude 1e21 and above in exponent notation. The model always writes plain decimal digits, which agrees for every real process exit code.
- YouTubeUrl.ValidIffSplit: strings are sequences of Unicode scalar values, not UTF-16 code units. The line terminators `.` refuses (LF, CR, U+2028, U+2029) all lie in the Basic Multilingual Plane, so acceptance is the same.
- Args.ExactlyOneFlag: assumes the URL and the joined output path are not themselves flag tokens. `Prompts.AcceptedUrlIsNotAnOption` discharges this for the URL, and `Args.JoinedPathIsNotAFlag` for any joined path that ends with the template.
