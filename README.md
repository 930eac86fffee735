# KellyList in Dafny

KellyList turns two Swedish word lists into Anki import files, each with
spoken audio for every card.

- `kelly_to_anki.py` reads the Kelly frequency list. For each word it:
  - looks the word up in Folkets lexikon, or falls back to a translation service;
  - makes sure an `.mp3` for the word is in the `media` folder, either downloaded from the dictionary's link or synthesized by text-to-speech;
  - writes a line `word TAB definition TAB CEFR-level` under a four-line header.
- `riksdagen_law_glossary_anki.py` pairs the terms of the Riksdag's Swedish law glossary with their definitions. It looks up each term's English counterpart through the `(Sw: key)` cross-references of the English glossary. It writes a line `term [sound:file] TAB definition<br><br>English` for every term, synthesizing the term's audio when the file is absent.

Everything outside that logic is a parameter of the model:

- the web services and the speech engine;
- the HTML parser;
- the spreadsheet reader.

What is modelled is the deterministic layer around them: the string handling, the per-word decision tree, the media folder and the loops that write the files.

The model is organized in these files:

- `wrappers.dfy`: `Option`.
- `text.dfy` (module `Text`): the Python `str` operations both scripts rely on:
  - `strip`, `rstrip(c)`, `lower`, `isalnum`;
  - `in`, `split(sep)[0]`, `split(sep)[1]`;
  - `replace('\n', '<br>')`.

  Each is a function with a small contract, and a `…Shape` lemma says what it means.
- `media.dfy` (module `Media`): the class `MediaDir`. It holds the `media` folder as the set of file names in it (`os.path.exists` is membership) and the log of the downloads and syntheses that wrote into it.
- `kelly.dfy` (module `Kelly`):
  - `extract_mp3_url`, as a matcher of its regular expression proved equivalent to a declarative reading of the pattern;
  - the file-name rules;
  - `process_word`. It is specified by the function `Resolve` and implemented step by step by the methods `ProcessWord` and `FetchAudio`, which work on a `MediaDir`;
  - the row assembly and the loop of `main`. The loop is specified by `KellyRun` and implemented by `WriteKellyDeck`.
- `glossary.dfy` (module `Glossary`):
  - `sanitize_filename`;
  - the loops of the two scrapes over the headings as already parsed. These are specified by `SwedishEntries` and `EnglishMapping` and implemented by `ScrapeSwedishTerms` and `ScrapeEnglishMapping`;
  - the card fields;
  - the loop of `main`, specified by `GlossaryRun` and implemented by `WriteGlossaryDeck` and `BuildGlossary`.

Two decisions need explaining:

- **Services as functions.** The services `process_word` consults are the record `Services`. It has four total functions:
  - `lookup` is `get_folkets_entry`;
  - `translate` is `translate_text`, with an outcome that can be a string, a non-string or an exception;
  - `download` says whether fetching and writing a URL succeeds;
  - `embed` is the anchor-to-`[sound:name]` substitution.
- **The query as it is.** Only the argument of the dictionary lookup is lower-cased (kelly_to_anki.py:91). The translator (line 97), the speech file name (line 131) and the speech engine (line 135) receive the query as it is.

## Model

| member | source | states |
|---|---|---|
| Text.LowerShape | kelly_to_anki.py:91 | lower-casing keeps the length, maps each character on its own, and is idempotent |
| Text.TrimLeftShape | kelly_to_anki.py:82 | `lstrip()` drops a leading run of whitespace and only that: the result is a suffix, it does not start with whitespace, and every removed character is whitespace |
| Text.TrimRightShape | kelly_to_anki.py:82 | `rstrip()` drops a trailing run of whitespace and only that: the result is a prefix, it does not end with whitespace, and every removed character is whitespace |
| Text.StripEnds | kelly_to_anki.py:82 | a stripped string is empty or has no whitespace at either end |
| Text.StripShape | kelly_to_anki.py:82 | `strip()` is the piece of the text left after removing a whitespace prefix and a whitespace suffix |
| Text.StripIsPiece | kelly_to_anki.py:83 | the stripped text occurs in the original |
| Text.StripIdle | kelly_to_anki.py:160 | text without whitespace at its ends is its own stripped form |
| Text.StripIdempotent | kelly_to_anki.py:160 | stripping twice equals stripping once, so `process_word` re-stripping the already stripped word changes nothing |
| Text.TrimRightCharShape | riksdagen_law_glossary_anki.py:63 | `rstrip(")")` removes exactly the trailing `)` characters: a prefix that does not end in `)`, with only `)` removed |
| Text.IndexFromShape | riksdagen_law_glossary_anki.py:60 | the search from a position finds an occurrence, the leftmost one at or after that position, and reports none only when there is none |
| Text.IndexOfShape | riksdagen_law_glossary_anki.py:60 | `str.find` finds the leftmost occurrence, or none exactly when there is none |
| Text.OccursAtContains | kelly_to_anki.py:170 | an occurrence at any position makes `sub in s` true |
| Text.ContainsWithin | kelly_to_anki.py:170 | a piece of the middle string is a piece of any concatenation around it |
| Text.ContainsTrans | riksdagen_law_glossary_anki.py:62 | a piece of a piece is a piece |
| Text.ContainsChars | kelly_to_anki.py:83 | a contained string's characters all occur in the container |
| Text.ContainsChar | kelly_to_anki.py:83 | a one-character string is contained exactly when that character occurs |
| Text.SplitHeadShape | kelly_to_anki.py:83 | `split(sep)[0]` is the prefix before the first `sep`, contains no `sep`, is shorter than the text exactly when `sep` occurs, and is followed by `sep` then |
| Text.SplitHeadAt | kelly_to_anki.py:83 | when `sep` first occurs at `i`, `find` returns `i` and `split(sep)[0]` is the first `i` characters |
| Text.SplitSecondShape | riksdagen_law_glossary_anki.py:63 | `split(sep)[1]` starts right after the first `sep` and runs up to the next `sep`, or to the end of the text when there is none; it contains no `sep` |
| Text.SplitAtFirst | kelly_to_anki.py:175 | splitting `a + c + b` at `c`, when `a` has no `c`, gives `a` first and the first field of `b` second |
| Text.NewlinesToBreaksShape | kelly_to_anki.py:167 | after `replace('\n', '<br>')` no newline is left, text without a newline is unchanged, and every character comes from the text or from `<br>` |
| Media.MediaDir.constructor | kelly_to_anki.py:30 | the folder starts with the files already there and no calls made |
| Media.MediaDir.Download | kelly_to_anki.py:111-118 | a download adds its file exactly when it succeeds, leaves the folder unchanged otherwise, and is logged with its outcome |
| Media.MediaDir.Synthesize | kelly_to_anki.py:134-135 | a synthesis adds its file and is logged with the spoken text |
| Kelly.QueryText | kelly_to_anki.py:82-88 | a blank display text gives an empty query |
| Kelly.QueryTextShape | kelly_to_anki.py:82-83 | the query never contains `(`, is trimmed, is a piece of the display text before its first `(`, and is the whole display text when that has no `(` |
| Kelly.QuoteFrom | kelly_to_anki.py:70 | the scan stops at a quote or at the end, never before its start |
| Kelly.QuoteFromAt | kelly_to_anki.py:70 | the scan stops at the first quote |
| Kelly.QuoteFromSkips | kelly_to_anki.py:70 | the scan passes over no quote |
| Kelly.UrlBodyIn | kelly_to_anki.py:70 | a matched `[^'"]+\.mp3` is at least five characters long, ends in `.mp3`, and has no quote |
| Kelly.UrlBodyOf | kelly_to_anki.py:70 | conversely, such a stretch matches `[^'"]+\.mp3` |
| Kelly.SchemeOfGroup | kelly_to_anki.py:70 | a matching group starts with the `https?://` scheme the matcher measures, followed by a matching body |
| Kelly.GroupOfScheme | kelly_to_anki.py:70 | a measured scheme followed by a matching body is a matching group |
| Kelly.MatchAtSound | kelly_to_anki.py:70 | a successful attempt at a position is a match of the whole pattern there |
| Kelly.MatchAtComplete | kelly_to_anki.py:70 | every match of the pattern at a position is found by the attempt there, with the same end |
| Kelly.MatchAtIsPattern | kelly_to_anki.py:70 | the attempt at a position succeeds with an end exactly when the pattern matches there with that end |
| Kelly.FindFrom | kelly_to_anki.py:70 | `re.search` reports the leftmost successful attempt, and none only when every attempt fails |
| Kelly.GroupTail | kelly_to_anki.py:70 | a group whose tail matches `[^'"]+\.mp3` ends in `.mp3` and has no quote in that tail |
| Kelly.GroupIsMp3Url | kelly_to_anki.py:70 | a captured group starts with `http://` or `https://`, ends with `.mp3` and has no quote |
| Kelly.ExtractMp3Url | kelly_to_anki.py:66-71 | a returned URL starts with `http://` or `https://`, ends with `.mp3` and contains no `'` or `"` |
| Kelly.ExtractMp3UrlNone | kelly_to_anki.py:66-71 | None is returned exactly when the pattern matches nowhere |
| Kelly.ExtractMp3UrlLeftmost | kelly_to_anki.py:66-71 | the URL returned is the group of the leftmost match |
| Kelly.AfterLastSlash | kelly_to_anki.py:109 | the basename starts within the path, right after a `/` when there is one |
| Kelly.AfterLastSlashIsLast | kelly_to_anki.py:109 | no `/` follows the point where the basename starts |
| Kelly.DownloadName | kelly_to_anki.py:108-109 | the basename of a found URL contains no `/` and ends in `.mp3` |
| Kelly.SpeechNameShape | kelly_to_anki.py:130-132 | the speech file name keeps the query's `[A-Za-z0-9_-]` characters in place, puts `_` for every other one, keeps the length, ends in `.mp3`, contains no `/` or newline, and sanitizing is idempotent |
| Kelly.Content | kelly_to_anki.py:90-102 | a definition that is found is never empty |
| Kelly.ContentSources | kelly_to_anki.py:90-102 | a non-empty primary entry is taken, whatever the translator would say; otherwise exactly a non-empty string translation is taken, and an empty, non-string or raising translation gives none |
| Kelly.ResolveSkips | kelly_to_anki.py:86-102 | a blank word yields `(None, None)` whatever the services are, so no lookup matters; a word neither source knows yields `(None, None)`; neither touches the folder |
| Kelly.ResolveHasSound | kelly_to_anki.py:129-138 | a returned definition always comes with a sound file, and that file is in the folder afterwards; the folder only grows; a skipped word changes nothing |
| Kelly.AudioHasSound | kelly_to_anki.py:106-136 | steps 3 and 4 always end with a sound file that is in the folder |
| Kelly.ResolveSoundName | kelly_to_anki.py:106-136 | the sound file is the link's basename, an `.mp3` name without `/`, with the anchor embedded, exactly when there is a link whose file exists or downloads; otherwise it is the speech name and the definition is left as found |
| Kelly.AudioSoundName | kelly_to_anki.py:107-136 | the same choice of sound file for a given link |
| Kelly.ResolveCallsOnlyWhenAbsent | kelly_to_anki.py:110-135 | at most one download and at most one synthesis happen, the download first, and both only when the download failed; each is for a file not already in the folder, and a synthesis speaks the query into its speech name |
| Kelly.AudioCallsOnlyWhenAbsent | kelly_to_anki.py:110-135 | the same for steps 3 and 4 |
| Kelly.ResolveRerun | kelly_to_anki.py:106-136 | against a folder holding what a first run left, with downloads free to succeed or fail anew, a word synthesizes nothing; its only call re-attempts a download that failed in the first run, for a file still absent; the folder gains exactly the file a successful retry fetched; when the retry fails too and no failed link's file has appeared, it gives the same definition and sound file |
| Kelly.AudioRerun | kelly_to_anki.py:106-136 | the same for steps 3 and 4 |
| Kelly.ProcessWord | kelly_to_anki.py:73-138 | the imperative `process_word` returns what `Resolve` specifies and leaves the folder and the call log as it says; a definition comes with a sound file in the folder |
| Kelly.KeepLink | kelly_to_anki.py:109-118 | the link's basename is downloaded only when absent; `mp3_url` survives exactly when the file was there or the download succeeded, and the folder gains the file exactly then |
| Kelly.SpeakQuery | kelly_to_anki.py:130-136 | the speech file name is the sanitized query plus `.mp3`; it is synthesized only when absent, and it is in the folder afterwards |
| Kelly.FetchAudio | kelly_to_anki.py:108-136 | the reassignments of `mp3_url`, `sound_filename` and `entry_html` agree with `Audio`; there is always a sound file, and it is in the folder |
| Kelly.DefinitionFieldShape | kelly_to_anki.py:166-171 | `def_line` starts with the whole definition with newlines as `<br>`; it holds `[sound:` whenever there is a sound file; a marker already present is not doubled; and it has no newline when the sound name has none |
| Kelly.SoundTagShape | kelly_to_anki.py:171 | the appended marker holds `[sound:` and adds no newline |
| Kelly.NoteLineFields | kelly_to_anki.py:175 | reading the line back at tabs gives the word first and the definition field second, when neither holds a tab |
| Kelly.ResolveSoundIsMp3 | kelly_to_anki.py:108-136 | every sound file a word gets is an `.mp3` name |
| Kelly.NoteLineSound | kelly_to_anki.py:170-175 | a line whose definition field holds `[sound:` holds it |
| Kelly.NoteStepShape | kelly_to_anki.py:159-175 | one row adds no line when it yields no (or an empty) definition, and otherwise exactly `word TAB def_line TAB tag` of the stripped word and tag; the added line holds `[sound:` and has a sound file in the folder; earlier lines are kept and the folder only grows |
| Kelly.SoundedDeckGrows | kelly_to_anki.py:159-175 | one sounded line more, with a folder that only grew, keeps every line sounded |
| Kelly.KellyRunShape | kelly_to_anki.py:159-175 | the loop writes at most one line per row; every line holds `[sound:` and has its sound file in the folder at the end; the folder only grows |
| Kelly.KellyRerun | kelly_to_anki.py:159-175 | a second run against the folder the first one left, with downloads free to succeed or fail anew, synthesizes nothing; its only calls re-attempt downloads that failed in the first run, for files still absent; the folder gains exactly the files those retries fetched; when every retry fails and no failed download's file has appeared, it writes the same lines with the same sound files |
| Kelly.KellyRunSkips | kelly_to_anki.py:159-175 | when some row's word is blank or known to neither the dictionary nor the translator, the loop writes strictly fewer lines than there are rows |
| Kelly.RowSkipped | kelly_to_anki.py:86-102 | a row whose stripped word is blank or unknown gets no definition, so `main` writes no line for it |
| Kelly.WriteKellyDeck | kelly_to_anki.py:151-175 | the file written is the four header lines and then the lines `KellyRun` specifies, and the folder and the call log end as it says |
| Glossary.SanitizeFilenameShape | riksdagen_law_glossary_anki.py:72-76 | sanitizing keeps the length, keeps alphanumerics, `-` and `_` in place, turns every other character into `_`, leaves only such characters, and is idempotent |
| Glossary.SanitizeFilenameFixes | riksdagen_law_glossary_anki.py:72-76 | text is its own sanitized form exactly when it holds only alphanumerics, `-` and `_` |
| Glossary.ParagraphHeadingsExact | riksdagen_law_glossary_anki.py:39-44 | the listed positions are exactly the headings with a following paragraph, each once, in increasing order |
| Glossary.SwedishEntriesPairing | riksdagen_law_glossary_anki.py:38-47 | the k-th entry is the stripped text and stripped paragraph of the k-th heading that has a paragraph; headings without one are skipped, so there are at most as many entries as headings |
| Glossary.ScrapeSwedishTerms | riksdagen_law_glossary_anki.py:38-47 | the appending loop builds exactly `SwedishEntries` |
| Glossary.KeyOfShape | riksdagen_law_glossary_anki.py:59-68 | the heading text falls apart at the first `(Sw:` into the text before it and the text after it up to the next `(Sw:` or the end; the key is the lower-cased, trimmed text after it with exactly its trailing `)` removed; the English term is the trimmed text before it and holds no `(Sw:`; a heading without a paragraph gives an empty English definition |
| Glossary.EnglishMappingStep | riksdagen_law_glossary_anki.py:68 | a contributing heading sets its key to its gloss, overwriting an earlier one; no other key is added, removed or changed, and a heading without `(Sw:` changes nothing |
| Glossary.KeyedAtFront | riksdagen_law_glossary_anki.py:58-60 | the earlier headings keep their keys when a heading is added |
| Glossary.EnglishMappingKeys | riksdagen_law_glossary_anki.py:57-70 | the keys of the mapping are exactly the keys of the headings that contain `(Sw:` |
| Glossary.EnglishMappingLast | riksdagen_law_glossary_anki.py:57-70 | the gloss under a key is that of the last contributing heading with that key |
| Glossary.LastKeyedAtFront | riksdagen_law_glossary_anki.py:57-70 | the last heading under a key stays the last when a heading under another key is added |
| Glossary.ScrapeEnglishMapping | riksdagen_law_glossary_anki.py:57-70 | the dictionary-assigning loop builds exactly `EnglishMapping` |
| Glossary.TermGloss | riksdagen_law_glossary_anki.py:101-102 | a term whose lower-cased form no English heading names as its `(Sw:` key looks up as `("", "")`; otherwise it finds the English term and definition of the last English heading under that key |
| Glossary.EnglishHtmlShape | riksdagen_law_glossary_anki.py:104-109 | `eng_html` is empty exactly when the English term is; otherwise it starts with the bold term div and ends with the definition div |
| Glossary.BackFieldShape | riksdagen_law_glossary_anki.py:112 | the back starts with the Swedish definition and two breaks, and holds nothing more exactly when there is no English term |
| Glossary.FrontFieldShape | riksdagen_law_glossary_anki.py:115 | the front starts with the term and ends with the marker of the term's own audio file, whose name is the sanitized term plus `.mp3` |
| Glossary.FrontFieldTabs | riksdagen_law_glossary_anki.py:115-116 | the front holds a tab exactly when the term does, since the file name never holds one |
| Glossary.GlossaryLineFields | riksdagen_law_glossary_anki.py:116 | reading the line back at tabs gives the front first and the back second, when the term and the back hold no tab |
| Glossary.GlossaryRunShape | riksdagen_law_glossary_anki.py:89-116 | every entry writes exactly its own line, in order, with no skipping; afterwards every term's audio file is in the folder; the folder only grows; each synthesis spoke a term into its own file, which had been absent |
| Glossary.GlossarySpeaksOnce | riksdagen_law_glossary_anki.py:93-97 | every call is a synthesis whose file is in the folder afterwards, and no two syntheses write the same file, so a repeated term is spoken once |
| Glossary.GlossaryRunLines | riksdagen_law_glossary_anki.py:89-116 | the lines written do not depend on what the folder held |
| Glossary.GlossaryRerun | riksdagen_law_glossary_anki.py:93-97 | a second run against the folder the first one left writes the same lines and synthesizes nothing |
| Glossary.WriteGlossaryDeck | riksdagen_law_glossary_anki.py:82-120 | the file written is the five header lines (four directives and a blank line) and then the lines `GlossaryRun` specifies; the folder and the call log end as it says; the reported count is the number of entries |
| Glossary.BuildGlossary | riksdagen_law_glossary_anki.py:78-120 | `main` writes the header and one line per Swedish entry scraped, with the English glosses scraped; the count it reports is the number of Swedish entries, at most the number of headings |

## Left out

- Network access:
  - `fetch_html` and the icon-to-emoji substitutions of `get_folkets_entry` (kelly_to_anki.py:37-64) are the oracle `Services.lookup`;
  - `translate_text` is `Services.translate`;
  - `requests.get` and the file write are the outcome `Services.download`.
  - The scripts' own HTTP calls and `raise_for_status` fall outside the model likewise.
- HTML parsing: BeautifulSoup's `find_all`, `find_next_sibling` and `get_text` are replaced by a sequence of headings, each with the text of its next paragraph if it has one.
- Anchor replacement: the `re.sub` that rewrites the `<a …href=URL…>…</a>` around the link into `[sound:name]` (kelly_to_anki.py:121-127) is the uninterpreted `Services.embed`. The row-level `[sound:` property does not depend on it, because the marker is appended whenever it is missing. The model's `embed` always returns. In Python, `re.sub` reads backslash escapes in the replacement `[sound:name]`. `[^'"]` lets a link, and so `name`, hold a backslash. A name holding an escape such as `\q` or `\1` makes `re.sub` raise an error that nothing catches, and the run stops; the model goes on instead.
- Partial downloads: the script opens the local file before writing to it (kelly_to_anki.py:115-116), so a write that fails halfway leaves a partial file behind. The model's failed `Download` leaves the folder unchanged.
- `os.path.basename` is modelled with its POSIX behaviour only: the name is what follows the last `/`.
- Speech synthesis: `edge_tts` and `asyncio.run` are `MediaDir.Synthesize`, which always adds the file. A failing synthesis, which raises in the scripts, is not modelled.
- Spreadsheet loading: `pd.read_csv`, `dropna`, `fillna`, `astype(str)` and `str(...)` are not modelled. The input is a sequence of rows of word and tag strings.
- Console output, `os.makedirs`, and the unused assignment at riksdagen_law_glossary_anki.py:90.
- Unicode:
  - `str.strip` uses Python's full whitespace set.
  - `str.lower` and `str.isalnum` are exact on the Latin-1 range only. Above U+00FF, characters are treated as caseless and as not alphanumeric.
  - There is no normalisation or multi-character lower-casing.
- Kelly.DefinitionFieldShape: states that `def_line` has no newline only when the sound file name has none, not unconditionally. `[^'"]` admits a newline, so a downloaded link's basename may hold one. When the embedded anchor does not carry the marker, that name is appended after the replacement of newlines.
- Kelly.ResolveRerun: states a weaker form of "running again changes nothing". The script keeps no record of failed downloads, so a rerun retries them, and a retry may now succeed. The rerun then writes the file and embeds the link, so its line differs. The line can also differ when the link's file has appeared in the meantime. The lemma promises the same definition only when neither happens. Kelly.KellyRerun has the same caveat. It also assumes that the dictionary, the translator and the anchor rewrite answer as they did in the first run. `get_folkets_entry` turns every failure into None, so a rerun during a network failure falls back to the translator and may then synthesize into a new speech file.
