/** The loose YouTube URL check `isValidYouTubeUrl` (index.js:72-75), whose
    pattern is `^(https?:\/\/)?(www\.)?(youtube\.com|youtu\.be)\/.+`.

    The pattern is anchored only at the start: after the host and its slash
    it needs one character that `.` accepts, and anything may follow. The
    matcher below walks the three optional/alternative groups by hand; the
    lemma `ValidIffSplit` proves it accepts exactly the strings that split
    into scheme, `www.`, host, `/`, one such character and an arbitrary rest. */
module YouTubeUrl {
  import opened Text

  const Schemes: set<string> := {"", "http://", "https://"}
  const WwwPrefixes: set<string> := {"", "www."}
  const Hosts: set<string> := {"youtube.com", "youtu.be"}

  /** The characters the regular-expression `.` refuses without the `s` flag. */
  predicate IsLineTerminator(c: char) {
    c == '\n' || c == '\r' || c == '\U{2028}' || c == '\U{2029}'
  }

  /** `h\/.` matches at the start of `t`. */
  predicate HostThen(t: string, h: string) {
    && StartsWith(t, h + "/")
    && |h| + 1 < |t|
    && !IsLineTerminator(t[|h| + 1])
  }

  /** `(youtube\.com|youtu\.be)\/.+` matches at the start of `t`. */
  predicate HostMatch(t: string) {
    HostThen(t, "youtube.com") || HostThen(t, "youtu.be")
  }

  /** `(www\.)?(youtube\.com|youtu\.be)\/.+` matches at the start of `t`,
      trying the group both present and absent. */
  predicate WwwMatch(t: string) {
    || HostMatch(t)
    || (StartsWith(t, "www.") && HostMatch(t[4..]))
  }

  /** `isValidYouTubeUrl(url)`: the whole pattern matches at the start of `url`,
      trying the scheme group both absent and present with and without `s`. */
  predicate IsValidYouTubeUrl(url: string)
    ensures IsValidYouTubeUrl(url) ==> 10 <= |url|
  {
    || WwwMatch(url)
    || (StartsWith(url, "http://") && WwwMatch(url[7..]))
    || (StartsWith(url, "https://") && WwwMatch(url[8..]))
  }

  /** The host, its slash, one character and the rest. */
  function HostPart(h: string, c: char, rest: string): string {
    (h + "/") + ([c] + rest)
  }

  /** The string made of the pattern's pieces in order. */
  function Compose(p: string, w: string, h: string, c: char, rest: string): string {
    p + (w + HostPart(h, c, rest))
  }

  /** Declarative reading of the pattern: some choice of each group, one
      character `.` accepts, then anything. */
  ghost predicate SplitSpec(s: string) {
    exists p, w, h, c, rest ::
      && p in Schemes && w in WwwPrefixes && h in Hosts
      && !IsLineTerminator(c)
      && s == Compose(p, w, h, c, rest)
  }

  lemma StartsWithConcat(a: string, b: string)
    ensures StartsWith(a + b, a) && (a + b)[|a|..] == b
  {
    assert (a + b)[..|a|] == a;
  }

  /** Every composed string passes the host stage once scheme and `www.` are stripped. */
  lemma HostMatchOf(h: string, c: char, rest: string)
    requires h in Hosts && !IsLineTerminator(c)
    ensures HostMatch(HostPart(h, c, rest))
  {
    var t := HostPart(h, c, rest);
    StartsWithConcat(h + "/", [c] + rest);
    assert t[|h| + 1] == c;
  }

  lemma WwwMatchOf(w: string, h: string, c: char, rest: string)
    requires w in WwwPrefixes && h in Hosts && !IsLineTerminator(c)
    ensures WwwMatch(w + HostPart(h, c, rest))
  {
    var u := HostPart(h, c, rest);
    HostMatchOf(h, c, rest);
    StartsWithConcat(w, u);
  }

  /** A string the host stage accepts for `h` is the host part of its pieces. */
  lemma HostPartOf(t: string, h: string) returns (c: char, rest: string)
    requires HostThen(t, h)
    ensures t == HostPart(h, c, rest) && !IsLineTerminator(c)
  {
    c, rest := t[|h| + 1], t[|h| + 2..];
    assert t[..|h| + 1] == h + "/";
    assert t == t[..|h| + 1] + ([c] + rest);
  }

  /** Pieces of the right kinds witness the split reading. */
  lemma SplitWitness(s: string, p: string, w: string, t: string, h: string, c: char, rest: string)
    requires p in Schemes && w in WwwPrefixes && h in Hosts && !IsLineTerminator(c)
    requires s == (p + w) + t && t == HostPart(h, c, rest)
    ensures SplitSpec(s)
  {
    assert (p + w) + t == p + (w + t);
    assert s == Compose(p, w, h, c, rest);
  }

  lemma PrefixThenRest(s: string, a: string)
    requires StartsWith(s, a)
    ensures s == a + s[|a|..]
  {
    assert s == s[..|a|] + s[|a|..];
  }

  /** From a successful host stage on a suffix, rebuild the split of the whole. */
  lemma SplitOfMatch(s: string, p: string, w: string, h: string)
    requires p in Schemes && w in WwwPrefixes && h in Hosts
    requires StartsWith(s, p + w) && HostThen(s[|p + w|..], h)
    ensures SplitSpec(s)
  {
    var t := s[|p + w|..];
    var c, rest := HostPartOf(t, h);
    PrefixThenRest(s, p + w);
    SplitWitness(s, p, w, t, h, c, rest);
  }

  lemma SplitOfHostStage(s: string, p: string, w: string)
    requires p in Schemes && w in WwwPrefixes
    requires StartsWith(s, p + w) && HostMatch(s[|p + w|..])
    ensures SplitSpec(s)
  {
    if HostThen(s[|p + w|..], "youtube.com") {
      SplitOfMatch(s, p, w, "youtube.com");
    } else {
      SplitOfMatch(s, p, w, "youtu.be");
    }
  }

  lemma SplitOfWwwStage(s: string, p: string)
    requires p in Schemes
    requires StartsWith(s, p) && WwwMatch(s[|p|..])
    ensures SplitSpec(s)
  {
    var t := s[|p|..];
    if HostMatch(t) {
      assert p + "" == p;
      SplitOfHostStage(s, p, "");
    } else {
      assert s[..|p + "www."|] == p + "www." by {
        assert s[..|p|] == p;
        assert t[..4] == "www.";
      }
      assert t[4..] == s[|p + "www."|..];
      SplitOfHostStage(s, p, "www.");
    }
  }

  /** Soundness of the split reading: every string the matcher accepts splits. */
  lemma MatchImpliesSplit(s: string)
    requires IsValidYouTubeUrl(s)
    ensures SplitSpec(s)
  {
    if WwwMatch(s) {
      assert s[|""|..] == s;
      SplitOfWwwStage(s, "");
    } else if StartsWith(s, "http://") && WwwMatch(s[7..]) {
      SplitOfWwwStage(s, "http://");
    } else {
      SplitOfWwwStage(s, "https://");
    }
  }

  /** The scheme stage: a scheme followed by a string the later stages accept. */
  lemma ValidOfSchemeStage(s: string, p: string)
    requires p in Schemes && StartsWith(s, p) && WwwMatch(s[|p|..])
    ensures IsValidYouTubeUrl(s)
  {
    if p == "" {
      assert s[|p|..] == s;
    } else if p == "http://" {
      assert |p| == 7;
    } else {
      assert |p| == 8;
    }
  }

  /** Every composed string is accepted by the matcher. */
  lemma MatchOfComposed(p: string, w: string, h: string, c: char, rest: string)
    requires p in Schemes && w in WwwPrefixes && h in Hosts && !IsLineTerminator(c)
    ensures IsValidYouTubeUrl(Compose(p, w, h, c, rest))
  {
    var s := Compose(p, w, h, c, rest);
    var u := w + HostPart(h, c, rest);
    WwwMatchOf(w, h, c, rest);
    StartsWithConcat(p, u);
    ValidOfSchemeStage(s, p);
  }

  /** Completeness of the matcher: every string that splits is accepted. */
  lemma SplitImpliesMatch(s: string)
    requires SplitSpec(s)
    ensures IsValidYouTubeUrl(s)
  {
    var p, w, h, c, rest :|
      && p in Schemes && w in WwwPrefixes && h in Hosts
      && !IsLineTerminator(c)
      && s == Compose(p, w, h, c, rest);
    MatchOfComposed(p, w, h, c, rest);
  }

  /** The hand-written matcher and the split reading agree on every string. */
  lemma ValidIffSplit(s: string)
    ensures IsValidYouTubeUrl(s) <==> SplitSpec(s)
  {
    if IsValidYouTubeUrl(s) {
      MatchImpliesSplit(s);
    }
    if SplitSpec(s) {
      SplitImpliesMatch(s);
    }
  }

  /** A full watch URL with scheme and `www.` is accepted. */
  lemma AcceptsWatchUrl()
    ensures IsValidYouTubeUrl("https://www.youtube.com/watch?v=abc123")
  {
    assert Compose("https://", "www.", "youtube.com", 'w', "atch?v=abc123") == "https://www.youtube.com/watch?v=abc123";
    MatchOfComposed("https://", "www.", "youtube.com", 'w', "atch?v=abc123");
  }

  /** A bare short link is accepted. */
  lemma AcceptsShortLink()
    ensures IsValidYouTubeUrl("youtu.be/x")
  {
    assert Compose("", "", "youtu.be", 'x', "") == "youtu.be/x";
    MatchOfComposed("", "", "youtu.be", 'x', "");
  }

  /** A string the host stage accepts starts with `y`. */
  lemma HostMatchFirstChar(t: string)
    ensures HostMatch(t) ==> |t| > 0 && t[0] == 'y'
  {
    if HostThen(t, "youtube.com") {
      assert t[..12][0] == 'y';
    } else if HostThen(t, "youtu.be") {
      assert t[..9][0] == 'y';
    }
  }

  /** A string the `www.` stage accepts starts with `w` or `y`. */
  lemma WwwMatchFirstChar(t: string)
    ensures WwwMatch(t) ==> |t| > 0 && (t[0] == 'w' || t[0] == 'y')
  {
    HostMatchFirstChar(t);
    if StartsWith(t, "www.") {
      assert t[..4][0] == 'w';
    }
  }

  /** A host followed only by its slash is refused: `.+` needs a character. */
  lemma RefusesEmptyPath()
    ensures !IsValidYouTubeUrl("youtube.com/")
  {
    var s := "youtube.com/";
    assert !HostThen(s, "youtube.com");
    assert !HostThen(s, "youtu.be") by {
      assert s[5] == 'b';
      assert (s[..9])[5] == 'b';
    }
    assert s[0] == 'y';
  }

  /** A host other than the two named ones (here a mobile subdomain) is refused. */
  lemma RefusesOtherHost()
    ensures !IsValidYouTubeUrl("https://m.youtube.com/x")
  {
    var t := "m.youtube.com/x";
    var s := "https://" + t;
    assert s == "https://m.youtube.com/x";
    assert s[0] == 'h' && s[4] == 's';
    assert s[8..] == t;
    WwwMatchFirstChar(s);
    WwwMatchFirstChar(t);
    assert !StartsWith(s, "http://") by {
      assert "http://"[4] == ':';
    }
  }

  /** A line terminator right after the slash is refused. */
  lemma RefusesLineBreakPath()
    ensures !IsValidYouTubeUrl("youtube.com/\nx")
  {
    var s := "youtube.com/\nx";
    assert s[12] == '\n';
    assert !HostThen(s, "youtu.be") by {
      assert s[5] == 'b';
      assert (s[..9])[5] == 'b';
    }
    assert s[0] == 'y';
  }

  /** Every accepted URL begins with `h`, `w` or `y`; in particular none starts with a dash. */
  lemma ValidUrlFirstChar(url: string)
    requires IsValidYouTubeUrl(url)
    ensures |url| > 0 && url[0] in {'h', 'w', 'y'}
  {
    WwwMatchFirstChar(url);
    if !WwwMatch(url) {
      if StartsWith(url, "http://") {
        assert url[..7][0] == 'h';
      } else {
        assert url[..8][0] == 'h';
      }
    }
  }
}
