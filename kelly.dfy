/** kelly_to_anki.py: for each word of the Kelly list, find a definition
    (Folkets lexikon first, a translation service second), make sure an
    .mp3 for it is in the media folder (downloaded from the dictionary's
    link, or synthesized), and write one tab-separated Anki line. */
module Kelly {
  import opened Wrappers
  import opened Text
  import opened Media

  const DeckName := "KellyList"
  const NoteType := "Basic"

  /** One spreadsheet row after `dropna`/`fillna`: the word cell and the
      CEFR level cell (empty when the cell was missing). */
  datatype Row = Row(word: string, tag: string)

  /** What `translate_text` can do: raise, return something that is not a
      `str` (such as None), or return a string. */
  datatype Translation = Raised | NonString | Translated(value: string)

  /** The outside services `process_word` consults, as total functions.
      `lookup` is `get_folkets_entry` (fetch, icon substitution, joined
      `<p>` elements, None on any failure); `download` says whether
      fetching a URL and writing it succeeds; `embed` is the `re.sub` that
      turns the anchor around an .mp3 link into a `[sound:name]` marker,
      given the HTML, the URL and the name. */
  datatype Services = Services(
    lookup: string -> Option<string>,
    translate: string -> Translation,
    download: string -> bool,
    embed: (string, string, string) -> string)

  // ---------------------------------------------------------------------
  // The query text
  // ---------------------------------------------------------------------

  /** `word.strip().split('(')[0].strip()`: the display text without its
      parenthetical part. */
  function QueryText(word: string): (q: string)
    ensures Strip(word) == "" ==> q == ""
  {
    Strip(SplitHead(Strip(word), "("))
  }

  /** The query never contains `(`, is itself trimmed, is a piece of the
      display text before its first `(`, and is the whole display text when
      that has no `(`. */
  lemma QueryTextShape(word: string)
    ensures var q := QueryText(word);
      && '(' !in q
      && Strip(q) == q
      && Contains(SplitHead(Strip(word), "("), q)
      && ('(' !in Strip(word) ==> q == Strip(word))
  {
    var display := Strip(word);
    var head := SplitHead(display, "(");
    var q := Strip(head);
    SplitHeadShape(display, "(");
    ContainsChar(head, '(');
    StripIsPiece(head);
    ContainsChars(head, q);
    StripIdempotent(head);
    ContainsChar(display, '(');
    StripIdempotent(word);
  }

  // ---------------------------------------------------------------------
  // extract_mp3_url: re.search(r'href=[\'"](https?://[^\'"]+\.mp3)[\'"]', html)
  // ---------------------------------------------------------------------

  predicate IsQuote(c: char) {
    c == '\'' || c == '"'
  }

  /** A URL as the pattern's group captures it: `http://` or `https://`,
      then characters other than quotes, ending in `.mp3`. */
  predicate IsMp3Url(u: string) {
    && (StartsWith(u, "http://") || StartsWith(u, "https://"))
    && EndsWith(u, ".mp3")
    && forall j :: 0 <= j < |u| ==> !IsQuote(u[j])
  }

  /** Declarative reading of the group `https?://[^'"]+\.mp3`. */
  ghost predicate UrlBody(b: string) {
    |b| >= 5 && EndsWith(b, ".mp3") && forall j :: 0 <= j < |b| - 4 ==> !IsQuote(b[j])
  }

  ghost predicate GroupMatches(g: string) {
    || (StartsWith(g, "http://") && UrlBody(g[7..]))
    || (StartsWith(g, "https://") && UrlBody(g[8..]))
  }

  /** The whole pattern matches `s[p..e + 1]`, its group being `s[p + 6..e]`. */
  ghost predicate PatternMatches(s: string, p: nat, e: nat) {
    && p + 6 <= e < |s|
    && s[p..p + 5] == "href="
    && IsQuote(s[p + 5])
    && GroupMatches(s[p + 6..e])
    && IsQuote(s[e])
  }

  /** The first quote at or after `k`, or `|s|`. */
  function QuoteFrom(s: string, k: nat): (q: nat)
    requires k <= |s|
    decreases |s| - k
    ensures k <= q <= |s|
    ensures q < |s| ==> IsQuote(s[q])
  {
    if k == |s| || IsQuote(s[k]) then k else QuoteFrom(s, k + 1)
  }

  /** `QuoteFrom` stops at the first quote. */
  lemma {:induction false} QuoteFromAt(s: string, k: nat, e: nat)
    requires k <= e < |s| && IsQuote(s[e])
    requires forall j :: k <= j < e ==> !IsQuote(s[j])
    decreases e - k
    ensures QuoteFrom(s, k) == e
  {
    if k < e {
      QuoteFromAt(s, k + 1, e);
    }
  }

  /** `QuoteFrom` passes over no quote. */
  lemma {:induction false} QuoteFromSkips(s: string, k: nat)
    requires k <= |s|
    decreases |s| - k
    ensures forall j :: k <= j < QuoteFrom(s, k) ==> !IsQuote(s[j])
  {
    if k < |s| && !IsQuote(s[k]) {
      QuoteFromSkips(s, k + 1);
    }
  }

  /** The length of the scheme `https?://` at `u`, or 0 when neither is there. */
  function SchemeLength(s: string, u: nat): nat {
    if u <= |s| && StartsWith(s[u..], "https://") then 8
    else if u <= |s| && StartsWith(s[u..], "http://") then 7
    else 0
  }

  /** The regex engine's attempt at position `p`: the index of the closing
      quote when the pattern matches there. `[^'"]+` cannot cross a quote
      and `\.mp3['"]` must follow it, so the only candidate end is the first
      quote after the scheme. */
  function MatchAt(s: string, p: nat): Option<nat> {
    if p + 6 <= |s| && s[p..p + 5] == "href=" && IsQuote(s[p + 5]) && SchemeLength(s, p + 6) > 0 then
      var k := p + 6 + SchemeLength(s, p + 6);
      var q := QuoteFrom(s, k);
      if q < |s| && k + 5 <= q && s[q - 4..q] == ".mp3" then Some(q) else None
    else None
  }

  /** The body after the scheme, read on `s[k..e]`: at least five
      characters, no quote before the final `.mp3`. */
  lemma UrlBodyIn(s: string, k: nat, e: nat)
    requires k <= e <= |s| && UrlBody(s[k..e])
    ensures k + 5 <= e && s[e - 4..e] == ".mp3"
    ensures forall j :: k <= j < e ==> !IsQuote(s[j])
  {
    var b := s[k..e];
    assert s[e - 4..e] == b[|b| - 4..];
    forall j | k <= j < e ensures !IsQuote(s[j]) {
      assert s[j] == b[j - k];
      if j >= e - 4 {
        assert s[j] == s[e - 4..e][j - (e - 4)];
      }
    }
  }

  /** The converse of `UrlBodyIn`. */
  lemma UrlBodyOf(s: string, k: nat, e: nat)
    requires k + 5 <= e <= |s| && s[e - 4..e] == ".mp3"
    requires forall j :: k <= j < e - 4 ==> !IsQuote(s[j])
    ensures UrlBody(s[k..e])
  {
    var b := s[k..e];
    assert b[|b| - 4..] == s[e - 4..e];
    forall j | 0 <= j < |b| - 4 ensures !IsQuote(b[j]) {
      assert b[j] == s[k + j];
    }
  }

  /** Reading `n` characters from `u` in `s` or in `s[u..e]` is the same. */
  lemma SliceTake(s: string, u: nat, e: nat, n: nat)
    requires u + n <= e <= |s|
    ensures s[u..][..n] == s[u..e][..n]
    ensures s[u..e][n..] == s[u + n..e]
  {
  }

  /** A group that matches starts with the scheme `SchemeLength` measures. */
  lemma SchemeOfGroup(s: string, u: nat, e: nat)
    requires u <= e <= |s| && GroupMatches(s[u..e])
    ensures SchemeLength(s, u) > 0 && u + SchemeLength(s, u) <= e
    ensures UrlBody(s[u + SchemeLength(s, u)..e])
  {
    var g := s[u..e];
    if StartsWith(g, "https://") {
      assert g[4] == g[..8][4] == 's';
      assert !StartsWith(g, "http://") by {
        assert g[..7][4] == g[4];
      }
      SliceTake(s, u, e, 8);
      assert StartsWith(s[u..], "https://");
    } else {
      assert StartsWith(g, "http://") && UrlBody(g[7..]);
      SliceTake(s, u, e, 7);
      var t := s[u..];
      assert t[..7] == "http://";
      assert t[4] == t[..7][4] == ':';
      assert !StartsWith(t, "https://") by {
        if |t| >= 8 {
          assert t[..8][4] == t[4];
        }
      }
    }
  }

  /** The converse of `SchemeOfGroup`. */
  lemma GroupOfScheme(s: string, u: nat, e: nat)
    requires SchemeLength(s, u) > 0 && u + SchemeLength(s, u) <= e <= |s|
    requires UrlBody(s[u + SchemeLength(s, u)..e])
    ensures GroupMatches(s[u..e])
  {
    var n := SchemeLength(s, u);
    var g := s[u..e];
    assert g[..n] == s[u..][..n];
    assert g[n..] == s[u + n..e];
  }

  /** A successful attempt at `p` is a match of the pattern there. */
  lemma MatchAtSound(s: string, p: nat)
    requires MatchAt(s, p).Some?
    ensures PatternMatches(s, p, MatchAt(s, p).value)
  {
    var e := MatchAt(s, p).value;
    var u := p + 6;
    var k := u + SchemeLength(s, u);
    QuoteFromSkips(s, k);
    UrlBodyOf(s, k, e);
    GroupOfScheme(s, u, e);
  }

  /** A match of the pattern at `p` is found by the attempt at `p`. */
  lemma MatchAtComplete(s: string, p: nat, e: nat)
    requires PatternMatches(s, p, e)
    ensures MatchAt(s, p) == Some(e)
  {
    var u := p + 6;
    SchemeOfGroup(s, u, e);
    var k := u + SchemeLength(s, u);
    UrlBodyIn(s, k, e);
    QuoteFromAt(s, k, e);
    assert p + 6 <= |s| && s[p..p + 5] == "href=" && IsQuote(s[p + 5]) && SchemeLength(s, u) > 0;
    assert QuoteFrom(s, k) == e && e < |s| && k + 5 <= e && s[e - 4..e] == ".mp3";
  }

  /** The attempt at `p` succeeds exactly when the pattern matches there. */
  lemma MatchAtIsPattern(s: string, p: nat, e: nat)
    ensures MatchAt(s, p) == Some(e) <==> PatternMatches(s, p, e)
  {
    if MatchAt(s, p) == Some(e) {
      MatchAtSound(s, p);
    }
    if PatternMatches(s, p, e) {
      MatchAtComplete(s, p, e);
    }
  }

  /** The leftmost successful attempt at or after `p`, with its end. */
  function FindFrom(s: string, p: nat): (r: Option<(nat, nat)>)
    decreases |s| - p
    ensures r.Some? ==> p <= r.value.0 && MatchAt(s, r.value.0) == Some(r.value.1)
    ensures r.Some? ==> forall j :: p <= j < r.value.0 ==> MatchAt(s, j).None?
    ensures r.None? ==> forall j :: p <= j ==> MatchAt(s, j).None?
  {
    if p >= |s| then None
    else match MatchAt(s, p)
      case Some(e) => Some((p, e))
      case None => FindFrom(s, p + 1)
  }

  /** A group whose tail from `n` matches `[^'"]+\.mp3` ends in `.mp3` and
      has no quote from `n` on. */
  lemma GroupTail(g: string, n: nat)
    requires n <= |g| && UrlBody(g[n..])
    ensures EndsWith(g, ".mp3")
    ensures forall j :: n <= j < |g| ==> !IsQuote(g[j])
  {
    assert g[n..|g|] == g[n..];
    UrlBodyIn(g, n, |g|);
    assert g[|g| - 4..] == g[|g| - 4..|g|];
  }

  /** A group the pattern captures is an .mp3 URL. */
  lemma GroupIsMp3Url(g: string)
    requires GroupMatches(g)
    ensures IsMp3Url(g)
  {
    if StartsWith(g, "https://") {
      assert g[4] == g[..8][4] == 's';
      assert !StartsWith(g, "http://") by {
        assert g[..7][4] == g[4];
      }
      GroupTail(g, 8);
      forall j | 0 <= j < 8 ensures !IsQuote(g[j]) {
        assert g[j] == g[..8][j];
      }
    } else {
      GroupTail(g, 7);
      forall j | 0 <= j < 7 ensures !IsQuote(g[j]) {
        assert g[j] == g[..7][j];
      }
    }
  }

  /** `extract_mp3_url`: the group of the leftmost match, or None. */
  function ExtractMp3Url(html: string): (r: Option<string>)
    ensures r.Some? ==> IsMp3Url(r.value)
  {
    match FindFrom(html, 0)
    case None => None
    case Some((p, e)) =>
      MatchAtSound(html, p);
      GroupIsMp3Url(html[p + 6..e]);
      Some(html[p + 6..e])
  }

  /** No URL is found exactly when the pattern matches nowhere. */
  lemma ExtractMp3UrlNone(html: string)
    ensures ExtractMp3Url(html).None? <==> forall p: nat, e: nat :: !PatternMatches(html, p, e)
  {
    match FindFrom(html, 0)
    case None =>
      forall p: nat, e: nat ensures !PatternMatches(html, p, e) {
        MatchAtIsPattern(html, p, e);
      }
    case Some((p, e)) =>
      MatchAtIsPattern(html, p, e);
  }

  /** The URL returned is the group of the leftmost match. */
  lemma ExtractMp3UrlLeftmost(html: string, p: nat, e: nat)
    requires PatternMatches(html, p, e)
    requires forall p': nat, e': nat :: p' < p ==> !PatternMatches(html, p', e')
    ensures ExtractMp3Url(html) == Some(html[p + 6..e])
  {
    MatchAtIsPattern(html, p, e);
    match FindFrom(html, 0)
    case None =>
    case Some((p0, e0)) =>
      MatchAtIsPattern(html, p0, e0);
  }

  // ---------------------------------------------------------------------
  // File names
  // ---------------------------------------------------------------------

  /** The index just after the last `/` in `path`, or 0 when it has none:
      `path.rfind('/') + 1`. */
  function AfterLastSlash(path: string): (i: nat)
    ensures i <= |path|
    ensures i > 0 ==> path[i - 1] == '/'
  {
    if path == [] || path[|path| - 1] == '/' then |path|
    else AfterLastSlash(path[..|path| - 1])
  }

  /** No `/` follows the one `AfterLastSlash` stops at. */
  lemma {:induction false} AfterLastSlashIsLast(path: string)
    ensures forall j :: AfterLastSlash(path) <= j < |path| ==> path[j] != '/'
  {
    if path != [] && path[|path| - 1] != '/' {
      var front := path[..|path| - 1];
      AfterLastSlashIsLast(front);
      forall j | AfterLastSlash(path) <= j < |front| ensures path[j] != '/' {
        assert path[j] == front[j];
      }
    }
  }

  /** `os.path.basename`: what follows the last `/` (all of `path` without one). */
  function Basename(path: string): string {
    path[AfterLastSlash(path)..]
  }

  /** The name a dictionary link is saved under is an .mp3 name without `/`. */
  lemma {:induction false} DownloadName(url: string)
    requires IsMp3Url(url)
    ensures '/' !in Basename(url)
    ensures EndsWith(Basename(url), ".mp3")
  {
    var i := AfterLastSlash(url);
    var r := Basename(url);
    AfterLastSlashIsLast(url);
    var n := |url|;
    if StartsWith(url, "http://") {
      assert url[6] == url[..7][6] == '/';
    } else {
      assert url[6] == url[..8][6] == '/';
    }
    assert i > 0;
    forall j | n - 4 <= j < n ensures url[j] != '/' {
      assert url[j] == url[n - 4..][j - (n - 4)];
    }
    assert i <= n - 4;
    assert r[|r| - 4..] == url[n - 4..];
    forall j | 0 <= j < |r| ensures r[j] != '/' {
      assert r[j] == url[i + j];
    }
  }

  /** A character `[A-Za-z0-9_-]` keeps. */
  predicate IsNameChar(c: char) {
    ('A' <= c <= 'Z') || ('a' <= c <= 'z') || ('0' <= c <= '9') || c == '_' || c == '-'
  }

  /** `re.sub(r'[^A-Za-z0-9_-]', '_', text)`. */
  function SafeName(text: string): string {
    seq(|text|, k requires 0 <= k < |text| => if IsNameChar(text[k]) then text[k] else '_')
  }

  /** The file edge-tts writes for a query. */
  function SpeechName(query: string): string {
    SafeName(query) + ".mp3"
  }

  /** A synthesized name keeps the query's length and its `[A-Za-z0-9_-]`
      characters in place, puts `_` for every other one, ends in `.mp3`,
      and sanitizing it again changes nothing. */
  lemma SpeechNameShape(query: string)
    ensures var n := SpeechName(query);
      && |n| == |query| + 4
      && EndsWith(n, ".mp3")
      && (forall k :: 0 <= k < |query| && IsNameChar(query[k]) ==> n[k] == query[k])
      && (forall k :: 0 <= k < |query| && !IsNameChar(query[k]) ==> n[k] == '_')
      && (forall k :: 0 <= k < |query| ==> IsNameChar(n[k]))
      && '/' !in n && '\n' !in n
      && SafeName(SafeName(query)) == SafeName(query)
  {
    var n := SpeechName(query);
    assert n[..|query|] == SafeName(query);
    assert n[|query|..] == ".mp3";
    forall k | 0 <= k < |n| ensures n[k] != '/' && n[k] != '\n' {
      if k >= |query| {
        assert n[k] == ".mp3"[k - |query|];
      }
    }
  }

  // ---------------------------------------------------------------------
  // process_word
  // ---------------------------------------------------------------------

  /** Steps 1 and 2: the Folkets entry for the lower-cased query when it is
      non-empty, otherwise the non-empty translation of the query; None
      when both fail. */
  function Content(query: string, svc: Services): (r: Option<string>)
    ensures r.Some? ==> r.value != ""
  {
    var primary := svc.lookup(Lower(query));
    if primary.Some? && primary.value != "" then primary
    else match svc.translate(query)
      case Translated(t) => if t != "" then Some(t) else None
      case _ => None
  }

  /** The translation is consulted only when the primary entry is missing
      or empty; then a non-empty string is taken as is, and anything else
      (an empty string, a non-string, an exception) skips the word. */
  lemma ContentSources(query: string, svc: Services, other: string -> Translation)
    ensures var primary := svc.lookup(Lower(query));
      primary.Some? && primary.value != "" ==>
        Content(query, svc) == primary && Content(query, svc.(translate := other)) == primary
    ensures var primary := svc.lookup(Lower(query));
      !(primary.Some? && primary.value != "") ==>
        forall t :: Content(query, svc) == Some(t) <==> svc.translate(query) == Translated(t) && t != ""
  {
  }

  /** What one word does: the definition, the sound file, the media folder
      afterwards and the download/synthesis calls made, in order. */
  datatype Resolution = Resolution(
    definition: Option<string>,
    sound: Option<string>,
    files: set<string>,
    calls: seq<Call>)

  /** Step 4: fall back to a synthesized file for the query. */
  function Speech(content: string, query: string, files: set<string>, calls: seq<Call>): Resolution {
    var name := SpeechName(query);
    if name in files then Resolution(Some(content), Some(name), files, calls)
    else Resolution(Some(content), Some(name), files + {name}, calls + [Synthesized(query, name)])
  }

  /** Step 3: use the .mp3 link found in the content, if any, when its file
      exists or downloads. */
  function Audio(content: string, link: Option<string>, query: string, svc: Services, files: set<string>): Resolution {
    match link
    case None => Speech(content, query, files, [])
    case Some(url) =>
      var name := Basename(url);
      if name in files then
        Resolution(Some(svc.embed(content, url, name)), Some(name), files, [])
      else if svc.download(url) then
        Resolution(Some(svc.embed(content, url, name)), Some(name), files + {name}, [Downloaded(url, true)])
      else
        Speech(content, query, files, [Downloaded(url, false)])
  }

  /** The specification of `process_word`. */
  function Resolve(word: string, svc: Services, files: set<string>): Resolution {
    var display := Strip(word);
    var query := QueryText(word);
    if display == "" then Resolution(None, None, files, [])
    else match Content(query, svc)
      case None => Resolution(None, None, files, [])
      case Some(content) => Audio(content, ExtractMp3Url(content), query, svc, files)
  }

  /** A blank word, or one neither source knows, changes nothing; a blank
      word is never looked up at all. */
  lemma ResolveSkips(word: string, svc: Services, other: Services, files: set<string>)
    ensures Strip(word) == "" ==>
      Resolve(word, svc, files) == Resolve(word, other, files) == Resolution(None, None, files, [])
    ensures Strip(word) != "" && Content(QueryText(word), svc).None? ==>
      Resolve(word, svc, files) == Resolution(None, None, files, [])
  {
  }

  /** The central invariant: a returned definition always comes with a
      sound file, and that file is then in the media folder. The folder
      only grows, and nothing changes for a skipped word. */
  lemma ResolveHasSound(word: string, svc: Services, files: set<string>)
    ensures var r := Resolve(word, svc, files);
      && files <= r.files
      && (r.definition.Some? ==> r.sound.Some? && r.sound.value in r.files)
      && (r.definition.None? ==> r.sound.None? && r.files == files && r.calls == [])
  {
    if Strip(word) == "" {
    } else if Content(QueryText(word), svc).None? {
    } else {
      var content := Content(QueryText(word), svc).value;
      AudioHasSound(content, ExtractMp3Url(content), QueryText(word), svc, files);
    }
  }

  lemma AudioHasSound(content: string, link: Option<string>, query: string, svc: Services, files: set<string>)
    ensures var r := Audio(content, link, query, svc, files);
      files <= r.files && r.definition.Some? && r.sound.Some? && r.sound.value in r.files
  {
  }

  /** Which file a word ends up with: the link's basename (an .mp3 name
      without `/`) exactly when there is a link whose file exists or
      downloads, otherwise the synthesized name. */
  lemma ResolveSoundName(word: string, svc: Services, files: set<string>)
    ensures var r := Resolve(word, svc, files);
      r.definition.Some? ==>
        var content := Content(QueryText(word), svc).value;
        var url := ExtractMp3Url(content);
        if url.Some? && (Basename(url.value) in files || svc.download(url.value)) then
          && r.sound == Some(Basename(url.value))
          && r.definition == Some(svc.embed(content, url.value, Basename(url.value)))
          && EndsWith(r.sound.value, ".mp3") && '/' !in r.sound.value
        else
          r.sound == Some(SpeechName(QueryText(word))) && r.definition == Some(content)
  {
    if Strip(word) == "" {
    } else if Content(QueryText(word), svc).None? {
    } else {
      var content := Content(QueryText(word), svc).value;
      AudioSoundName(content, ExtractMp3Url(content), QueryText(word), svc, files);
    }
  }

  lemma AudioSoundName(content: string, link: Option<string>, query: string, svc: Services, files: set<string>)
    requires link.Some? ==> IsMp3Url(link.value)
    ensures var r := Audio(content, link, query, svc, files);
      if link.Some? && (Basename(link.value) in files || svc.download(link.value)) then
        && r.sound == Some(Basename(link.value))
        && r.definition == Some(svc.embed(content, link.value, Basename(link.value)))
        && EndsWith(r.sound.value, ".mp3") && '/' !in r.sound.value
      else
        r.sound == Some(SpeechName(query)) && r.definition == Some(content)
  {
    if link.Some? {
      DownloadName(link.value);
    }
  }

  /** At most one download and at most one synthesis happen, the download
      first (and then only when it failed); each is for a file that is
      absent, and a synthesis always speaks the query into its sanitized
      name. */
  lemma ResolveCallsOnlyWhenAbsent(word: string, svc: Services, files: set<string>)
    ensures var r := Resolve(word, svc, files);
      && |r.calls| <= 2
      && (|r.calls| == 2 ==> r.calls[0].Downloaded? && !r.calls[0].ok && r.calls[1].Synthesized?)
      && (forall c :: c in r.calls && c.Downloaded? ==> Basename(c.url) !in files)
      && (forall c :: c in r.calls && c.Synthesized? ==>
            c.file !in files && c.text == QueryText(word) && c.file == SpeechName(c.text))
  {
    if Strip(word) == "" {
    } else if Content(QueryText(word), svc).None? {
    } else {
      var content := Content(QueryText(word), svc).value;
      AudioCallsOnlyWhenAbsent(content, ExtractMp3Url(content), QueryText(word), svc, files);
    }
  }

  lemma AudioCallsOnlyWhenAbsent(content: string, link: Option<string>, query: string, svc: Services, files: set<string>)
    ensures var r := Audio(content, link, query, svc, files);
      && |r.calls| <= 2
      && (|r.calls| == 2 ==> r.calls[0].Downloaded? && !r.calls[0].ok && r.calls[1].Synthesized?)
      && (forall c :: c in r.calls && c.Downloaded? ==> Basename(c.url) !in files)
      && (forall c :: c in r.calls && c.Synthesized? ==>
            c.file !in files && c.text == query && c.file == SpeechName(c.text))
  {
  }

  /** The files that the successful downloads among `calls` wrote. */
  function Fetched(calls: seq<Call>): set<string>
    decreases |calls|
  {
    if calls == [] then {}
    else
      var c := calls[|calls| - 1];
      Fetched(calls[..|calls| - 1]) + (if c.Downloaded? && c.ok then {Basename(c.url)} else {})
  }

  lemma {:induction false} FetchedConcat(a: seq<Call>, b: seq<Call>)
    decreases |b|
    ensures Fetched(a + b) == Fetched(a) + Fetched(b)
  {
    if b != [] {
      var front := b[..|b| - 1];
      assert (a + b)[..|a + b| - 1] == a + front;
      FetchedConcat(a, front);
    } else {
      assert a + b == a;
    }
  }

  /** Running a word again against a folder that holds what the first run
      left, with downloads that may now succeed or fail (`retry`), while the
      dictionary, the translator and the anchor rewrite answer as before.
      The rerun synthesizes nothing. Its only call is a re-attempt of a
      download that failed in the first run, for a file still absent, and
      the folder gains exactly the file such a retry fetched. When no retry
      succeeds and no failed link's file has appeared meanwhile, it gives
      the same definition and sound file. */
  lemma ResolveRerun(word: string, svc: Services, retry: string -> bool, files: set<string>, later: set<string>)
    requires Resolve(word, svc, files).files <= later
    ensures var first := Resolve(word, svc, files);
      var r := Resolve(word, svc.(download := retry), later);
      && |r.calls| <= 1
      && (forall c :: c in r.calls ==>
            && c.Downloaded? && c.ok == retry(c.url)
            && Downloaded(c.url, false) in first.calls && Basename(c.url) !in later)
      && r.files == later + Fetched(r.calls)
      && ((forall c :: c in r.calls ==> !c.ok) &&
          (forall c :: c in first.calls && c.Downloaded? && !c.ok ==> Basename(c.url) !in later) ==>
            r.definition == first.definition && r.sound == first.sound)
  {
    var svc2 := svc.(download := retry);
    assert Content(QueryText(word), svc2) == Content(QueryText(word), svc);
    if Strip(word) == "" {
    } else if Content(QueryText(word), svc).None? {
    } else {
      var content := Content(QueryText(word), svc).value;
      AudioRerun(content, ExtractMp3Url(content), QueryText(word), svc, retry, files, later);
    }
  }

  lemma AudioRerun(content: string, link: Option<string>, query: string, svc: Services, retry: string -> bool,
                   files: set<string>, later: set<string>)
    requires Audio(content, link, query, svc, files).files <= later
    ensures var first := Audio(content, link, query, svc, files);
      var r := Audio(content, link, query, svc.(download := retry), later);
      && |r.calls| <= 1
      && (forall c :: c in r.calls ==>
            && c.Downloaded? && c.ok == retry(c.url)
            && Downloaded(c.url, false) in first.calls && Basename(c.url) !in later)
      && r.files == later + Fetched(r.calls)
      && ((forall c :: c in r.calls ==> !c.ok) &&
          (forall c :: c in first.calls && c.Downloaded? && !c.ok ==> Basename(c.url) !in later) ==>
            r.definition == first.definition && r.sound == first.sound)
  {
    var svc2 := svc.(download := retry);
    var first := Audio(content, link, query, svc, files);
    var r := Audio(content, link, query, svc2, later);
    AudioHasSound(content, link, query, svc, files);
    match link
    case None =>
      assert SpeechName(query) in later;
      assert r.calls == [];
    case Some(url) =>
      var name := Basename(url);
      if name !in files && !svc.download(url) {
        assert first == Speech(content, query, files, [Downloaded(url, false)]);
        assert SpeechName(query) in later;
        assert Downloaded(url, false) in first.calls;
        if name !in later {
          assert r.calls == [Downloaded(url, retry(url))];
          assert r.calls[..0] == [];
        } else {
          assert r.calls == [];
        }
      } else {
        assert name in later;
        assert r.calls == [];
      }
  }

  lemma AppendEmpty<T>(a: seq<T>)
    ensures a + [] == a
  {
  }

  lemma PrefixOfConcat<T>(a: seq<T>, b: seq<T>)
    ensures (a + b)[..|a|] == a
  {
  }

  lemma TakeAll<T>(a: seq<T>)
    ensures a[..|a|] == a
  {
  }

  lemma ConcatAssoc<T>(a: seq<T>, b: seq<T>, c: seq<T>)
    ensures (a + b) + c == a + (b + c)
  {
  }

  /** `process_word`, step by step as the script does it: `entry_html` is
      reassigned from the Folkets entry to the translation, and steps 3 and
      4 are `FetchAudio`. */
  method ProcessWord(word: string, svc: Services, media: MediaDir)
    returns (definition: Option<string>, sound: Option<string>)
    modifies media
    ensures var r := Resolve(word, svc, old(media.files));
      && definition == r.definition && sound == r.sound
      && media.files == r.files && media.calls == old(media.calls) + r.calls
    ensures definition.Some? ==> sound.Some? && sound.value in media.files
  {
    var display := Strip(word);
    var query := QueryText(word);
    AppendEmpty(media.calls);
    if display == "" {
      return None, None;
    }

    var entry := svc.lookup(Lower(query));
    if entry.None? || entry.value == "" {
      var translated := svc.translate(query);
      if !translated.Translated? || translated.value == "" {
        assert Content(query, svc).None?;
        return None, None;
      }
      entry := Some(translated.value);
    }

    assert Content(query, svc) == entry;
    assert Resolve(word, svc, media.files)
        == Audio(entry.value, ExtractMp3Url(entry.value), query, svc, media.files);
    var mp3Url := ExtractMp3Url(entry.value);
    var html;
    html, sound := FetchAudio(entry.value, mp3Url, query, svc, media);
    definition := Some(html);
  }

  /** The download half of step 3: the link's file is downloaded unless it
      is already in the folder; `kept` says whether `mp3_url` survives. The
      call log gains the download attempt, if one was made. */
  method KeepLink(url: string, svc: Services, media: MediaDir) returns (name: string, kept: bool)
    modifies media
    ensures name == Basename(url)
    ensures kept == (name in old(media.files) || svc.download(url))
    ensures media.files == if kept then old(media.files) + {name} else old(media.files)
    ensures media.calls == old(media.calls) + (if name in old(media.files) then [] else [Downloaded(url, kept)])
  {
    name := Basename(url);
    kept := true;
    AppendEmpty(media.calls);
    if !media.Has(name) {
      kept := media.Download(url, name, svc.download(url));
    }
  }

  /** Step 4: the speech file for the query, synthesized only when it is
      absent from the folder. */
  method SpeakQuery(query: string, media: MediaDir) returns (name: string)
    modifies media
    ensures name == SpeechName(query)
    ensures media.files == old(media.files) + {name}
    ensures media.calls == old(media.calls) + (if name in old(media.files) then [] else [Synthesized(query, name)])
  {
    name := SpeechName(query);
    AppendEmpty(media.calls);
    if !media.Has(name) {
      media.Synthesize(query, name);
    }
  }

  /** Steps 3 and 4 of `process_word` once `mp3_url` is known: it is
      cleared when the download fails, and `sound_filename` is set from the
      link or, failing that, from speech synthesis; files are written only
      when absent. */
  method FetchAudio(content: string, link: Option<string>, query: string, svc: Services, media: MediaDir)
    returns (html: string, sound: Option<string>)
    modifies media
    ensures var r := Audio(content, link, query, svc, old(media.files));
      && Some(html) == r.definition && sound == r.sound
      && media.files == r.files && media.calls == old(media.calls) + r.calls
    ensures sound.Some? && sound.value in media.files
  {
    ghost var before := media.files;
    ghost var log: seq<Call> := [];
    html := content;
    sound := None;

    var mp3Url := link;
    ghost var audio := Audio(html, mp3Url, query, svc, before);
    if mp3Url.Some? {
      var name, kept := KeepLink(mp3Url.value, svc, media);
      log := if name in before then [] else [Downloaded(mp3Url.value, kept)];
      if !kept {
        mp3Url := None;
      }
      if mp3Url.Some? {
        sound := Some(name);
        html := svc.embed(html, mp3Url.value, name);
      }
    }
    assert sound.None? ==> audio == Speech(html, query, before, log);
    assert sound.Some? ==> audio == Resolution(Some(html), sound, media.files, log);

    if sound.None? {
      ghost var calls := media.calls;
      var name := SpeakQuery(query, media);
      ghost var spoken := if name in before then [] else [Synthesized(query, name)];
      ConcatAssoc(old(media.calls), log, spoken);
      log := log + spoken;
      sound := Some(name);
    }
  }

  // ---------------------------------------------------------------------
  // main: the import file
  // ---------------------------------------------------------------------

  /** The four header lines Anki reads before the notes. */
  const KellyHeader: seq<string> :=
    ["#separator:Tab", "#columns:Word\tDefinition\tTags", "#notetype:" + NoteType, "#deck:" + DeckName]

  /** `def_line`: the definition on one line, with `[sound:name]` appended
      when there is a sound file and the definition carries no marker yet. */
  function DefinitionField(definition: string, sound: Option<string>): string {
    var line := NewlinesToBreaks(definition);
    if sound.Some? && sound.value != "" && !Contains(line, "[sound:") then
      line + SoundTag(sound.value)
    else
      line
  }

  /** The field keeps the whole definition with its line breaks as `<br>`;
      it carries a sound marker whenever there is a sound file; a marker
      already present (from the embedded link) is not doubled; and it is a
      single line unless the sound name itself holds a line break. */
  lemma DefinitionFieldShape(definition: string, sound: Option<string>)
    ensures var line := NewlinesToBreaks(definition);
      var r := DefinitionField(definition, sound);
      && StartsWith(r, line)
      && (sound.Some? && sound.value != "" ==> Contains(r, "[sound:"))
      && (Contains(line, "[sound:") || sound.None? ==> r == line)
      && ((sound.Some? ==> '\n' !in sound.value) ==> '\n' !in r)
  {
    var line := NewlinesToBreaks(definition);
    var r := DefinitionField(definition, sound);
    NewlinesToBreaksShape(definition);
    if sound.Some? && sound.value != "" && !Contains(line, "[sound:") {
      var tail := SoundTag(sound.value);
      SoundTagShape(sound.value);
      assert r == line + tail + [];
      ContainsWithin(line, tail, [], "[sound:");
      assert r[..|line|] == line;
    }
  }

  /** The marker appended after a definition. */
  function SoundTag(name: string): string {
    " [sound:" + name + "]"
  }

  lemma SoundTagShape(name: string)
    ensures Contains(SoundTag(name), "[sound:")
    ensures '\n' !in name ==> '\n' !in SoundTag(name)
  {
    var tail := SoundTag(name);
    assert tail[1..8] == "[sound:";
    OccursAtContains(tail, "[sound:", 1);
  }

  /** One note: word, definition and tags, tab-separated. */
  function NoteLine(word: string, field: string, tag: string): string {
    word + "\t" + field + "\t" + tag
  }

  /** Anki reads the note back: the text before the first tab is the word
      and the text between the first two tabs is the definition field, as
      long as neither holds a tab itself. */
  lemma NoteLineFields(word: string, field: string, tag: string)
    requires '\t' !in word
    ensures SplitHead(NoteLine(word, field, tag), "\t") == word
    ensures '\t' !in field ==> SplitSecond(NoteLine(word, field, tag), "\t") == field
  {
    var rest := field + "\t" + tag;
    assert NoteLine(word, field, tag) == word + "\t" + rest;
    SplitAtFirst(word, '\t', rest);
    if '\t' !in field {
      SplitAtFirst(field, '\t', tag);
    }
  }

  /** What the loop over the rows has produced: the note lines written, the
      sound file of each (in the same order), the media folder and the
      calls made. */
  datatype Deck = Deck(lines: seq<string>, sounds: seq<string>, files: set<string>, calls: seq<Call>)

  /** One pass of the loop in `main`: the row's word and tag are stripped,
      the word is processed against the folder as the earlier rows left it,
      and a line is written when a definition came back. */
  function NoteStep(d: Deck, row: Row, svc: Services): Deck {
    var word := Strip(row.word);
    var r := Resolve(word, svc, d.files);
    if r.definition.None? || r.definition.value == "" then
      Deck(d.lines, d.sounds, r.files, d.calls + r.calls)
    else
      Deck(d.lines + [NoteLine(word, DefinitionField(r.definition.value, r.sound), Strip(row.tag))],
           d.sounds + [if r.sound.Some? then r.sound.value else ""],
           r.files, d.calls + r.calls)
  }

  /** The specification of the loop in `main`, row after row. */
  function KellyRun(rows: seq<Row>, svc: Services, files: set<string>): Deck
    decreases |rows|
  {
    if rows == [] then Deck([], [], files, [])
    else NoteStep(KellyRun(rows[..|rows| - 1], svc, files), rows[|rows| - 1], svc)
  }

  /** Every sound file a word ends up with is an .mp3 name. */
  lemma ResolveSoundIsMp3(word: string, svc: Services, files: set<string>)
    ensures var r := Resolve(word, svc, files);
      r.sound.Some? ==> |r.sound.value| >= 4 && EndsWith(r.sound.value, ".mp3")
  {
    ResolveHasSound(word, svc, files);
    ResolveSoundName(word, svc, files);
    SpeechNameShape(QueryText(word));
  }

  /** A note whose definition field carries a sound marker carries it. */
  lemma NoteLineSound(word: string, field: string, tag: string)
    requires Contains(field, "[sound:")
    ensures Contains(NoteLine(word, field, tag), "[sound:")
  {
    ContainsWithin(word + "\t", field, "\t" + tag, "[sound:");
    assert (word + "\t") + field + ("\t" + tag) == NoteLine(word, field, tag);
  }

  /** One pass writes no line when the word yields no (or an empty)
      definition, and otherwise exactly the line `word TAB def_line TAB
      tag` of the stripped word and tag, with a sound marker and a sound
      file that is then in the folder; the folder only grows. */
  lemma NoteStepShape(d: Deck, row: Row, svc: Services)
    ensures var n := NoteStep(d, row, svc);
      var word := Strip(row.word);
      var r := Resolve(word, svc, d.files);
      && (r.definition.None? || r.definition.value == "" ==> n.lines == d.lines && n.sounds == d.sounds)
      && (r.definition.Some? && r.definition.value != "" ==>
            n.lines == d.lines + [NoteLine(word, DefinitionField(r.definition.value, r.sound), Strip(row.tag))])
      && n.files == r.files && n.calls == d.calls + r.calls
      && d.files <= n.files
      && |d.lines| <= |n.lines| && |d.sounds| <= |n.sounds|
      && |n.lines| - |d.lines| == |n.sounds| - |d.sounds| <= 1
      && n.lines[..|d.lines|] == d.lines && n.sounds[..|d.sounds|] == d.sounds
      && (|n.lines| > |d.lines| ==> Contains(n.lines[|d.lines|], "[sound:"))
      && (|n.sounds| > |d.sounds| ==> n.sounds[|d.sounds|] in n.files)
  {
    var word := Strip(row.word);
    var r := Resolve(word, svc, d.files);
    ResolveHasSound(word, svc, d.files);
    if r.definition.Some? && r.definition.value != "" {
      ResolveSoundIsMp3(word, svc, d.files);
      var field := DefinitionField(r.definition.value, r.sound);
      DefinitionFieldShape(r.definition.value, r.sound);
      NoteLineSound(word, field, Strip(row.tag));
      PrefixOfConcat(d.lines, [NoteLine(word, field, Strip(row.tag))]);
      PrefixOfConcat(d.sounds, [r.sound.value]);
    } else {
      TakeAll(d.lines);
      TakeAll(d.sounds);
    }
  }

  /** What every deck built by the loop satisfies: one sound file per
      line, every line carrying a sound marker, every sound file in the
      folder. */
  predicate SoundedDeck(d: Deck) {
    && |d.lines| == |d.sounds|
    && (forall i :: 0 <= i < |d.lines| ==> Contains(d.lines[i], "[sound:"))
    && (forall i :: 0 <= i < |d.sounds| ==> d.sounds[i] in d.files)
  }

  /** Extending a sounded deck by at most one sounded line, in a folder
      that only grew, keeps it sounded. */
  lemma SoundedDeckGrows(d: Deck, n: Deck)
    requires SoundedDeck(d) && d.files <= n.files
    requires |d.lines| <= |n.lines| && |d.sounds| <= |n.sounds|
    requires |n.lines| - |d.lines| == |n.sounds| - |d.sounds| <= 1
    requires n.lines[..|d.lines|] == d.lines && n.sounds[..|d.sounds|] == d.sounds
    requires |n.lines| > |d.lines| ==> Contains(n.lines[|d.lines|], "[sound:")
    requires |n.sounds| > |d.sounds| ==> n.sounds[|d.sounds|] in n.files
    ensures SoundedDeck(n)
  {
    forall i | 0 <= i < |d.lines| ensures Contains(n.lines[i], "[sound:") {
      assert n.lines[i] == n.lines[..|d.lines|][i];
    }
    forall i | 0 <= i < |d.sounds| ensures n.sounds[i] in n.files {
      assert n.sounds[i] == n.sounds[..|d.sounds|][i];
    }
  }

  /** A run writes at most one line per row, each with a sound marker and a
      sound file that is in the folder at the end; the folder only grows. */
  lemma {:induction false} KellyRunShape(rows: seq<Row>, svc: Services, files: set<string>)
    decreases |rows|
    ensures var d := KellyRun(rows, svc, files);
      && SoundedDeck(d) && |d.lines| <= |rows| && files <= d.files
  {
    if rows != [] {
      var front := rows[..|rows| - 1];
      KellyRunShape(front, svc, files);
      var prev := KellyRun(front, svc, files);
      NoteStepShape(prev, rows[|rows| - 1], svc);
      SoundedDeckGrows(prev, NoteStep(prev, rows[|rows| - 1], svc));
    }
  }

  /** How a rerun's deck relates to the first run's, given the folder
      `later` the rerun started from: every call is a retry of a download
      that failed in the first run, for a file absent from `later`; the
      folder gained exactly what the retries fetched; and when no retry
      succeeded and no failed download's file is in `later`, the lines and
      sound files are the same. */
  ghost predicate RerunOf(first: Deck, second: Deck, retry: string -> bool, later: set<string>) {
    && (forall c :: c in second.calls ==>
          && c.Downloaded? && c.ok == retry(c.url)
          && Downloaded(c.url, false) in first.calls && Basename(c.url) !in later)
    && second.files == later + Fetched(second.calls)
    && ((forall c :: c in second.calls ==> !c.ok) &&
        (forall c :: c in first.calls && c.Downloaded? && !c.ok ==> Basename(c.url) !in later) ==>
          second.lines == first.lines && second.sounds == first.sounds)
  }

  /** Retries of the failures of two stretches of a first run, appended,
      are retries of the failures of the two stretches appended. */
  lemma RetriesAppend(p1: seq<Call>, q1: seq<Call>, p2: seq<Call>, q2: seq<Call>, retry: string -> bool,
                      later: set<string>, now: set<string>)
    requires later <= now
    requires forall c :: c in p2 ==>
      c.Downloaded? && c.ok == retry(c.url) && Downloaded(c.url, false) in p1 && Basename(c.url) !in later
    requires forall c :: c in q2 ==>
      c.Downloaded? && c.ok == retry(c.url) && Downloaded(c.url, false) in q1 && Basename(c.url) !in now
    ensures forall c :: c in p2 + q2 ==>
      c.Downloaded? && c.ok == retry(c.url) && Downloaded(c.url, false) in p1 + q1 && Basename(c.url) !in later
  {
  }

  /** The rerun relation survives appending one more stretch to each run,
      when the second stretch only retries failures of the first and
      reproduces its lines whenever those retries all fail. */
  lemma RerunExtend(prev1: Deck, prev2: Deck, n1: Deck, n2: Deck, q1: seq<Call>, q2: seq<Call>,
                    retry: string -> bool, later: set<string>)
    requires RerunOf(prev1, prev2, retry, later)
    requires n1.calls == prev1.calls + q1 && n2.calls == prev2.calls + q2
    requires n2.files == prev2.files + Fetched(q2)
    requires forall c :: c in q2 ==>
      c.Downloaded? && c.ok == retry(c.url) && Downloaded(c.url, false) in q1 && Basename(c.url) !in prev2.files
    requires (prev1.lines == prev2.lines && prev1.sounds == prev2.sounds &&
              (forall c :: c in q2 ==> !c.ok) &&
              (forall c :: c in q1 && c.Downloaded? && !c.ok ==> Basename(c.url) !in prev2.files)) ==>
        n1.lines == n2.lines && n1.sounds == n2.sounds
    ensures RerunOf(n1, n2, retry, later)
  {
    FetchedConcat(prev2.calls, q2);
    RetriesAppend(prev1.calls, q1, prev2.calls, q2, retry, later, prev2.files);
    if (forall c :: c in n2.calls ==> !c.ok) &&
       (forall c :: c in n1.calls && c.Downloaded? && !c.ok ==> Basename(c.url) !in later) {
      assert forall c :: c in prev2.calls ==> c in n2.calls;
      assert forall c :: c in prev1.calls ==> c in n1.calls;
      assert forall c :: c in q1 ==> c in n1.calls;
      assert forall c :: c in q2 ==> c in n2.calls;
      FetchedNone(prev2.calls);
    }
  }

  /** One more row keeps the rerun relation. */
  lemma RerunStep(prev1: Deck, prev2: Deck, row: Row, svc: Services, retry: string -> bool, later: set<string>)
    requires RerunOf(prev1, prev2, retry, later)
    requires NoteStep(prev1, row, svc).files <= later
    ensures RerunOf(NoteStep(prev1, row, svc), NoteStep(prev2, row, svc.(download := retry)), retry, later)
  {
    var svc2 := svc.(download := retry);
    var word := Strip(row.word);
    var r1 := Resolve(word, svc, prev1.files);
    var r2 := Resolve(word, svc2, prev2.files);
    NoteStepShape(prev1, row, svc);
    NoteStepShape(prev2, row, svc2);
    ResolveRerun(word, svc, retry, prev1.files, prev2.files);
    if prev1.lines == prev2.lines && prev1.sounds == prev2.sounds &&
       (forall c :: c in r2.calls ==> !c.ok) &&
       (forall c :: c in r1.calls && c.Downloaded? && !c.ok ==> Basename(c.url) !in prev2.files) {
      NoteStepSame(prev1, prev2, row, svc, svc2);
    }
    RerunExtend(prev1, prev2, NoteStep(prev1, row, svc), NoteStep(prev2, row, svc2), r1.calls, r2.calls, retry, later);
  }

  /** Two passes over the same row that start from the same lines and get
      the same definition and sound file write the same lines. */
  lemma NoteStepSame(d1: Deck, d2: Deck, row: Row, svc1: Services, svc2: Services)
    requires d1.lines == d2.lines && d1.sounds == d2.sounds
    requires var word := Strip(row.word);
      var r1 := Resolve(word, svc1, d1.files);
      var r2 := Resolve(word, svc2, d2.files);
      r1.definition == r2.definition && r1.sound == r2.sound
    ensures NoteStep(d1, row, svc1).lines == NoteStep(d2, row, svc2).lines
    ensures NoteStep(d1, row, svc1).sounds == NoteStep(d2, row, svc2).sounds
  {
  }

  /** A log without a successful download fetched nothing. */
  lemma {:induction false} FetchedNone(calls: seq<Call>)
    decreases |calls|
    requires forall c :: c in calls ==> !c.Downloaded? || !c.ok
    ensures Fetched(calls) == {}
  {
    if calls != [] {
      var front := calls[..|calls| - 1];
      assert forall c :: c in front ==> c in calls;
      FetchedNone(front);
      assert calls[|calls| - 1] in calls;
    }
  }

  /** A row whose word is blank, or that neither the dictionary nor the
      translator knows, writes no line, so the file then has fewer lines
      than the list has rows. */
  lemma {:induction false} KellyRunSkips(rows: seq<Row>, svc: Services, files: set<string>, i: nat)
    decreases |rows|
    requires i < |rows|
    requires var w := Strip(rows[i].word); w == "" || Content(QueryText(w), svc).None?
    ensures |KellyRun(rows, svc, files).lines| < |rows|
  {
    var front := rows[..|rows| - 1];
    var prev := KellyRun(front, svc, files);
    KellyRunShape(front, svc, files);
    NoteStepShape(prev, rows[|rows| - 1], svc);
    if i < |rows| - 1 {
      assert front[i] == rows[i];
      KellyRunSkips(front, svc, files, i);
    } else {
      RowSkipped(rows[i], svc, prev.files);
    }
  }

  /** A row whose stripped word is blank or unknown gets no definition. */
  lemma RowSkipped(row: Row, svc: Services, files: set<string>)
    requires var w := Strip(row.word); w == "" || Content(QueryText(w), svc).None?
    ensures Resolve(Strip(row.word), svc, files).definition.None?
  {
    StripIdempotent(row.word);
    ResolveSkips(Strip(row.word), svc, svc, files);
  }

  /** Running the whole list again against the folder the first run left
      (or any folder holding at least that), with downloads that may now
      succeed or fail (`retry`) and the other services answering as before.
      The rerun synthesizes nothing. Its only calls re-attempt downloads
      that failed in the first run, for files still absent, and the folder
      gains exactly the files those retries fetched. When no retry succeeds
      and no failed download's file has appeared meanwhile, it writes the
      same lines with the same sound files. */
  lemma {:induction false} KellyRerun(rows: seq<Row>, svc: Services, retry: string -> bool,
                                      files: set<string>, later: set<string>)
    decreases |rows|
    requires KellyRun(rows, svc, files).files <= later
    ensures RerunOf(KellyRun(rows, svc, files), KellyRun(rows, svc.(download := retry), later), retry, later)
  {
    if rows == [] {
      assert Fetched([]) == {};
    } else {
      var front := rows[..|rows| - 1];
      var row := rows[|rows| - 1];
      var prev1 := KellyRun(front, svc, files);
      NoteStepShape(prev1, row, svc);
      KellyRerun(front, svc, retry, files, later);
      RerunStep(prev1, KellyRun(front, svc.(download := retry), later), row, svc, retry, later);
    }
  }

  /** The loop of `main`: the header, then one line per row that yields a
      definition, while the media folder fills up. */
  method WriteKellyDeck(rows: seq<Row>, svc: Services, media: MediaDir) returns (lines: seq<string>)
    modifies media
    ensures var d := KellyRun(rows, svc, old(media.files));
      && lines == KellyHeader + d.lines
      && media.files == d.files && media.calls == old(media.calls) + d.calls
  {
    lines := KellyHeader;
    AppendEmpty(lines);
    AppendEmpty(media.calls);
    var i := 0;
    while i < |rows|
      invariant 0 <= i <= |rows|
      invariant var d := KellyRun(rows[..i], svc, old(media.files));
        && lines == KellyHeader + d.lines
        && media.files == d.files && media.calls == old(media.calls) + d.calls
    {
      ghost var d := KellyRun(rows[..i], svc, old(media.files));
      assert rows[..i + 1][..i] == rows[..i];
      var word := Strip(rows[i].word);
      var tag := Strip(rows[i].tag);
      var definition, sound := ProcessWord(word, svc, media);
      ConcatAssoc(old(media.calls), d.calls, Resolve(word, svc, d.files).calls);
      if definition.Some? && definition.value != "" {
        var field := DefinitionField(definition.value, sound);
        ConcatAssoc(KellyHeader, d.lines, [NoteLine(word, field, tag)]);
        lines := lines + [NoteLine(word, field, tag)];
      }
      i := i + 1;
    }
    assert rows[..|rows|] == rows;
  }
}
