/** How the promise returned by `downloadAndConvert` settles from the events
    of the `yt-dlp` child process (index.js:48-63): a `close` with exit code
    0 resolves, any other code rejects with a message carrying the code; a
    spawn `error` with code `ENOENT` rejects with an installation hint, any
    other spawn error rejects with that error itself. */
module Child {
  import opened Wrappers
  import opened Text
  import opened Decimal

  const Enoent := "ENOENT"
  /** Written as two literals so that each stays short enough for the solver to index. */
  const NotInstalledMessage := "yt-dlp is not installed or not in PATH." + " Please install it first."
  const ExitedPrefix := "yt-dlp exited with code "

  /** A JavaScript `Error`: its `code` property, if any, and its message. */
  datatype JsError = JsError(code: Option<string>, message: string)

  /** An event delivered to one of the two listeners on the child. A `close`
      code is `null` when the child was ended by a signal. */
  datatype ChildEvent = Close(exitCode: Option<int>) | SpawnError(err: JsError)

  datatype Settlement = Resolved | Rejected(error: JsError)

  datatype PromiseState = Pending | Settled(result: Settlement)

  /** `${code}` for a close code: its decimal text, or `null`. */
  function CodeText(code: Option<int>): (r: string)
    ensures r == "null" <==> code.None?
    ensures code.Some? ==> IsIntText(r) && ParseInt(r) == code.value
  {
    match code
    case None => "null"
    case Some(n) => NullIsNotANumber(n); IntRoundTrip(n); IntToString(n)
  }

  /** The `close` listener (index.js:48-55). */
  function OnClose(code: Option<int>): (s: Settlement)
    ensures s.Resolved? <==> code == Some(0)
    ensures s.Rejected? ==> s.error.code.None? && StartsWith(s.error.message, ExitedPrefix)
  {
    if code == Some(0) then Resolved
    else
      var message := ExitedPrefix + CodeText(code);
      assert message[..|ExitedPrefix|] == ExitedPrefix;
      Rejected(JsError(None, message))
  }

  /** The `error` listener (index.js:57-63). */
  function OnError(err: JsError): (s: Settlement)
    ensures s.Rejected?
    ensures err.code == Some(Enoent) ==> s.error == JsError(None, NotInstalledMessage)
    ensures err.code != Some(Enoent) ==> s.error == err
  {
    if err.code == Some(Enoent) then Rejected(JsError(None, NotInstalledMessage)) else Rejected(err)
  }

  /** The listener an event reaches: `close` or `error`. */
  function Handle(e: ChildEvent): (s: Settlement)
    ensures s.Resolved? <==> e == Close(Some(0))
  {
    match e
    case Close(code) => OnClose(code)
    case SpawnError(err) => OnError(err)
  }

  /** One event reaching the promise: `resolve`/`reject` on a pending promise
      settles it, on a settled one does nothing. */
  function Step(state: PromiseState, e: ChildEvent): (next: PromiseState)
    ensures state.Settled? ==> next == state
    ensures next.Settled?
  {
    match state
    case Pending => Settled(Handle(e))
    case Settled(_) => state
  }

  /** The promise state after the events in order. */
  function Run(state: PromiseState, events: seq<ChildEvent>): (r: PromiseState)
    ensures |events| == 0 ==> r == state
    ensures |events| > 0 ==> r.Settled?
    decreases |events|
  {
    if |events| == 0 then state else Run(Step(state, events[0]), events[1..])
  }

  /** A settled promise stays as it is whatever events follow. */
  lemma {:induction false} SettledIsFinal(state: PromiseState, events: seq<ChildEvent>)
    requires state.Settled?
    ensures Run(state, events) == state
    decreases |events|
  {
    if |events| > 0 {
      SettledIsFinal(Step(state, events[0]), events[1..]);
    }
  }

  /** The first event decides the outcome; no event leaves the promise pending. */
  lemma FirstEventDecides(events: seq<ChildEvent>)
    ensures |events| == 0 ==> Run(Pending, events) == Pending
    ensures |events| > 0 ==> Run(Pending, events) == Settled(Handle(events[0]))
  {
    if |events| > 0 {
      SettledIsFinal(Settled(Handle(events[0])), events[1..]);
    }
  }

  /** The failure message of a nonzero close carries the code: reading the
      text after the prefix gives it back. */
  lemma CloseMessageCarriesCode(code: int)
    requires code != 0
    ensures var s := OnClose(Some(code));
      && s.Rejected?
      && IsIntText(s.error.message[|ExitedPrefix|..])
      && ParseInt(s.error.message[|ExitedPrefix|..]) == code
  {
    var message := ExitedPrefix + IntToString(code);
    assert message[|ExitedPrefix|..] == IntToString(code);
    IntRoundTrip(code);
  }

  /** A close with code 7 rejects with exactly `yt-dlp exited with code 7`. */
  lemma ExitCodeSevenMessage()
    ensures OnClose(Some(7)) == Rejected(JsError(None, "yt-dlp exited with code 7"))
  {
    assert IntToString(7) == "7";
  }

  /** Distinct close codes give distinct settlements. */
  lemma OnCloseInjective(c1: Option<int>, c2: Option<int>)
    ensures OnClose(c1) == OnClose(c2) ==> c1 == c2
  {
    if OnClose(c1) == OnClose(c2) && c1 != Some(0) && c2 != Some(0) {
      var m1 := ExitedPrefix + CodeText(c1);
      var m2 := ExitedPrefix + CodeText(c2);
      assert m1[|ExitedPrefix|..] == CodeText(c1);
      assert m2[|ExitedPrefix|..] == CodeText(c2);
      if c1.Some? && c2.Some? {
        IntToStringInjective(c1.value, c2.value);
      }
    }
  }

  lemma NullIsNotANumber(n: int)
    ensures IntToString(n) != "null"
  {
    IntRoundTrip(n);
    assert !IsDigit('n');
  }

  /** The installation hint comes only from a spawn error with code `ENOENT`:
      no close code produces it. */
  lemma InstallHintOnlyFromEnoent(e: ChildEvent)
    ensures Handle(e) == Rejected(JsError(None, NotInstalledMessage)) <==>
      || (e.SpawnError? && e.err.code == Some(Enoent))
      || e == SpawnError(JsError(None, NotInstalledMessage))
  {
    if e.Close? && Handle(e).Rejected? {
      var m := Handle(e).error.message;
      assert m[..|ExitedPrefix|] == ExitedPrefix;
      var hint := NotInstalledMessage;
      assert m[7] == 'e' && hint[7] == 'i';
    }
  }
}
