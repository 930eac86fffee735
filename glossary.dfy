/** riksdagen_law_glossary_anki.py: pair every glossary heading of the
    Swedish page with its definition, look up the English term and
    definition through the "(Sw: key)" cross-references of the English page,
    make sure a spoken .mp3 of the term is in the media folder, and write
    one tab-separated Anki line per term. The two pages arrive already
    parsed, as the sequence of their `<h3>` headings. */
module Glossary {
  import opened Wrappers
  import opened Text
  import opened Media

  const DeckName := "LawGlossary"
  const NoteType := "Basic"

  // ---------------------------------------------------------------------
  // sanitize_filename
  // ---------------------------------------------------------------------

  /** A character `sanitize_filename` keeps: alphanumeric, `-` or `_`. */
  predicate IsFileChar(c: char) {
    IsAlnum(c) || c == '-' || c == '_'
  }

  /** `''.join(c if c.isalnum() or c in '-_' else '_' for c in text)`. */
  function SanitizeFilename(text: string): string {
    seq(|text|, k requires 0 <= k < |text| => if IsFileChar(text[k]) then text[k] else '_')
  }

  /** Sanitizing keeps the length, keeps every allowed character in place,
      turns every other one into `_`, leaves only allowed characters, and
      changes nothing the second time. */
  lemma SanitizeFilenameShape(text: string)
    ensures var r := SanitizeFilename(text);
      && |r| == |text|
      && (forall k :: 0 <= k < |text| && IsFileChar(text[k]) ==> r[k] == text[k])
      && (forall k :: 0 <= k < |text| && !IsFileChar(text[k]) ==> r[k] == '_')
      && (forall k :: 0 <= k < |r| ==> IsFileChar(r[k]))
      && SanitizeFilename(r) == r
  {
    var r := SanitizeFilename(text);
    assert forall k :: 0 <= k < |r| ==> IsFileChar(r[k]);
    var rr := SanitizeFilename(r);
    assert |rr| == |r|;
    forall k | 0 <= k < |r| ensures rr[k] == r[k] {
    }
  }

  /** Text made of allowed characters only is its own sanitized form. */
  lemma SanitizeFilenameFixes(text: string)
    ensures SanitizeFilename(text) == text <==> forall k :: 0 <= k < |text| ==> IsFileChar(text[k])
  {
    if forall k :: 0 <= k < |text| ==> IsFileChar(text[k]) {
      var r := SanitizeFilename(text);
      forall k | 0 <= k < |text| ensures r[k] == text[k] {
      }
    } else {
      var k :| 0 <= k < |text| && !IsFileChar(text[k]);
      assert SanitizeFilename(text)[k] == '_' != text[k];
    }
  }

  // ---------------------------------------------------------------------
  // scrape_swedish_terms_and_defs
  // ---------------------------------------------------------------------

  /** One `<h3>` of a page: its text and, when the heading has a following
      sibling `<p>`, that paragraph's text (both as `get_text()` gives
      them, before stripping). */
  datatype Heading = Heading(text: string, next: Option<string>)

  /** A Swedish term and its Swedish definition. */
  datatype Entry = Entry(term: string, definition: string)

  /** The specification of the Swedish scrape: one entry per heading that
      has a following paragraph, in heading order, term and definition
      stripped. */
  function SwedishEntries(hs: seq<Heading>): seq<Entry>
    decreases |hs|
  {
    if hs == [] then []
    else
      var h := hs[|hs| - 1];
      var prev := SwedishEntries(hs[..|hs| - 1]);
      if h.next.Some? then prev + [Entry(Strip(h.text), Strip(h.next.value))] else prev
  }

  /** The positions of the headings that have a following paragraph, in
      increasing order. */
  function ParagraphHeadings(hs: seq<Heading>): seq<nat>
    decreases |hs|
  {
    if hs == [] then []
    else
      var prev := ParagraphHeadings(hs[..|hs| - 1]);
      if hs[|hs| - 1].next.Some? then prev + [|hs| - 1] else prev
  }

  /** `ix` lists, in increasing order, exactly the positions of the
      headings of `hs` that have a following paragraph. */
  ghost predicate ListsParagraphs(hs: seq<Heading>, ix: seq<nat>) {
    && (forall k :: 0 <= k < |ix| ==> ix[k] < |hs| && hs[ix[k]].next.Some?)
    && (forall k, l :: 0 <= k < l < |ix| ==> ix[k] < ix[l])
    && (forall j :: 0 <= j < |hs| && hs[j].next.Some? ==> j in ix)
  }

  /** `ParagraphHeadings` lists exactly the headings with a paragraph, each
      once and in order. */
  lemma {:induction false} ParagraphHeadingsExact(hs: seq<Heading>)
    decreases |hs|
    ensures ListsParagraphs(hs, ParagraphHeadings(hs))
  {
    if hs != [] {
      var front := hs[..|hs| - 1];
      ParagraphHeadingsExact(front);
      var prev := ParagraphHeadings(front);
      var ix := ParagraphHeadings(hs);
      if hs[|hs| - 1].next.Some? {
        assert ix == prev + [|hs| - 1];
      } else {
        assert ix == prev;
      }
      assert ix[..|prev|] == prev;
      forall k | 0 <= k < |prev| ensures ix[k] == prev[k] && hs[ix[k]] == front[prev[k]] {
        assert ix[k] == ix[..|prev|][k];
      }
      forall j | 0 <= j < |hs| && hs[j].next.Some? ensures j in ix {
        if j < |front| {
          assert front[j] == hs[j];
          var k :| 0 <= k < |prev| && prev[k] == j;
          assert ix[k] == j;
        }
      }
    }
  }

  /** The k-th entry of `es` comes from the k-th heading listed in `ix`:
      its stripped text and its stripped paragraph. */
  ghost predicate PairedWith(hs: seq<Heading>, ix: seq<nat>, es: seq<Entry>) {
    && |es| == |ix|
    && forall k :: 0 <= k < |es| ==>
         ix[k] < |hs| && hs[ix[k]].next.Some?
         && es[k] == Entry(Strip(hs[ix[k]].text), Strip(hs[ix[k]].next.value))
  }

  /** The pairing: the k-th entry comes from the k-th heading that has a
      paragraph, so headings without one are skipped and there are at most
      as many entries as headings. */
  lemma {:induction false} SwedishEntriesPairing(hs: seq<Heading>)
    decreases |hs|
    ensures PairedWith(hs, ParagraphHeadings(hs), SwedishEntries(hs))
    ensures |SwedishEntries(hs)| <= |hs|
  {
    ParagraphHeadingsExact(hs);
    if hs != [] {
      var front := hs[..|hs| - 1];
      SwedishEntriesPairing(front);
      var prev := ParagraphHeadings(front);
      var ix := ParagraphHeadings(hs);
      var es := SwedishEntries(hs);
      var pes := SwedishEntries(front);
      var h := hs[|hs| - 1];
      if h.next.Some? {
        assert ix == prev + [|hs| - 1];
        assert es == pes + [Entry(Strip(h.text), Strip(h.next.value))];
      } else {
        assert ix == prev;
        assert es == pes;
      }
      assert es[..|pes|] == pes;
      assert ix[..|prev|] == prev;
      forall k | 0 <= k < |pes|
        ensures es[k] == Entry(Strip(hs[ix[k]].text), Strip(hs[ix[k]].next.value))
      {
        assert es[k] == es[..|pes|][k];
        assert ix[k] == ix[..|prev|][k];
        assert hs[prev[k]] == front[prev[k]];
      }
    }
  }

  /** The loop of `scrape_swedish_terms_and_defs` over the parsed headings. */
  method ScrapeSwedishTerms(hs: seq<Heading>) returns (entries: seq<Entry>)
    ensures entries == SwedishEntries(hs)
  {
    entries := [];
    var i := 0;
    while i < |hs|
      invariant 0 <= i <= |hs|
      invariant entries == SwedishEntries(hs[..i])
    {
      assert hs[..i + 1][..i] == hs[..i];
      var term := Strip(hs[i].text);
      var p := hs[i].next;
      if p.Some? {
        var swDef := Strip(p.value);
        entries := entries + [Entry(term, swDef)];
      }
      i := i + 1;
    }
    assert hs[..|hs|] == hs;
  }

  // ---------------------------------------------------------------------
  // scrape_english_mapping
  // ---------------------------------------------------------------------

  /** The English term and English definition stored for a Swedish key. */
  datatype Gloss = Gloss(term: string, definition: string)

  /** A heading of the English page contributes when its stripped text
      contains the cross-reference `(Sw:`. */
  predicate Contributes(h: Heading) {
    Contains(Strip(h.text), "(Sw:")
  }

  /** `text.split("(Sw:")[1].rstrip(")").strip()`, lower-cased: the key. */
  function KeyOf(h: Heading): string
    requires Contributes(h)
  {
    Lower(Strip(TrimRightChar(SplitSecond(Strip(h.text), "(Sw:"), ')')))
  }

  /** `text.split("(Sw:")[0].strip()` and the stripped paragraph, or `""`
      when the heading has none. */
  function GlossOf(h: Heading): Gloss
    requires Contributes(h)
  {
    var text := Strip(h.text);
    Gloss(Strip(SplitHead(text, "(Sw:")), if h.next.Some? then Strip(h.next.value) else "")
  }

  /** How a contributing heading's text falls apart. `head` is the text
      before the first `(Sw:`; `after` is the text that follows that marker
      up to the next `(Sw:` or to the end; `core` is `after` without its
      closing parentheses. These three conditions fix each piece uniquely.
      The key is the trimmed, lower-cased `core` and the English term is
      the trimmed `head`, so it never holds the marker. A heading without a
      paragraph gives an empty English definition. */
  lemma KeyOfShape(h: Heading)
    requires Contributes(h)
    ensures var text := Strip(h.text);
      var head := SplitHead(text, "(Sw:");
      var rest := text[|head| + 4..];
      var after := SplitSecond(text, "(Sw:");
      var core := TrimRightChar(after, ')');
      && head == text[..|head|] && !Contains(head, "(Sw:") && OccursAt(text, "(Sw:", |head|)
      && StartsWith(rest, after) && !Contains(after, "(Sw:")
      && (after == rest || OccursAt(rest, "(Sw:", |after|))
      && StartsWith(after, core) && (core == [] || core[|core| - 1] != ')')
      && (forall k :: |core| <= k < |after| ==> after[k] == ')')
      && KeyOf(h) == Lower(Strip(core))
      && GlossOf(h).term == Strip(head)
      && !Contains(GlossOf(h).term, "(Sw:")
      && (h.next.None? ==> GlossOf(h).definition == "")
  {
    var text := Strip(h.text);
    var head := SplitHead(text, "(Sw:");
    var after := SplitSecond(text, "(Sw:");
    SplitHeadShape(text, "(Sw:");
    SplitSecondShape(text, "(Sw:");
    TrimRightCharShape(after, ')');
    StripIsPiece(head);
    if Contains(Strip(head), "(Sw:") {
      ContainsTrans(head, Strip(head), "(Sw:");
    }
  }

  /** The specification of the English scrape: the contributing headings
      in order, each storing its gloss under its key, later ones
      overwriting earlier ones. */
  function EnglishMapping(hs: seq<Heading>): map<string, Gloss>
    decreases |hs|
  {
    if hs == [] then map[]
    else
      var h := hs[|hs| - 1];
      var m := EnglishMapping(hs[..|hs| - 1]);
      if Contributes(h) then m[KeyOf(h) := GlossOf(h)] else m
  }

  /** One more heading changes at most the entry under its own key: a
      contributing heading sets it to its gloss, and no other key is added,
      removed or changed. */
  lemma EnglishMappingStep(hs: seq<Heading>, h: Heading)
    ensures var m := EnglishMapping(hs);
      var m' := EnglishMapping(hs + [h]);
      && (Contributes(h) ==> KeyOf(h) in m' && m'[KeyOf(h)] == GlossOf(h))
      && (forall k :: (!Contributes(h) || k != KeyOf(h)) ==>
            (k in m' <==> k in m) && (k in m ==> m'[k] == m[k]))
  {
    assert (hs + [h])[..|hs|] == hs;
  }

  /** Heading `i` of `hs` contributes, under key `k`. */
  ghost predicate KeyedAt(hs: seq<Heading>, i: int, k: string) {
    0 <= i < |hs| && Contributes(hs[i]) && KeyOf(hs[i]) == k
  }

  /** Dropping the last heading leaves the earlier positions as they were. */
  lemma KeyedAtFront(hs: seq<Heading>, i: int, k: string)
    requires 0 <= i < |hs| - 1
    ensures KeyedAt(hs, i, k) <==> KeyedAt(hs[..|hs| - 1], i, k)
  {
    assert hs[i] == hs[..|hs| - 1][i];
  }

  /** The keys of the mapping are exactly the keys of the contributing
      headings. */
  lemma {:induction false} EnglishMappingKeys(hs: seq<Heading>, k: string)
    decreases |hs|
    ensures k in EnglishMapping(hs) <==> exists i :: KeyedAt(hs, i, k)
  {
    if hs != [] {
      var front := hs[..|hs| - 1];
      var h := hs[|hs| - 1];
      EnglishMappingKeys(front, k);
      assert hs == front + [h];
      EnglishMappingStep(front, h);
      if k in EnglishMapping(hs) {
        if Contributes(h) && KeyOf(h) == k {
          assert KeyedAt(hs, |hs| - 1, k);
        } else {
          var i :| KeyedAt(front, i, k);
          KeyedAtFront(hs, i, k);
        }
      } else {
        forall i | 0 <= i < |hs| ensures !KeyedAt(hs, i, k) {
          if i < |front| {
            KeyedAtFront(hs, i, k);
          }
        }
      }
    }
  }

  /** Heading `i` is the last heading of `hs` that contributes under `k`. */
  ghost predicate LastKeyedAt(hs: seq<Heading>, i: int, k: string) {
    KeyedAt(hs, i, k) && forall j :: i < j < |hs| ==> !KeyedAt(hs, j, k)
  }

  /** The gloss stored under a key is that of the last contributing heading
      with that key. */
  lemma {:induction false} EnglishMappingLast(hs: seq<Heading>, k: string)
    decreases |hs|
    requires k in EnglishMapping(hs)
    ensures exists i :: LastKeyedAt(hs, i, k) && EnglishMapping(hs)[k] == GlossOf(hs[i])
  {
    var front := hs[..|hs| - 1];
    var h := hs[|hs| - 1];
    var m := EnglishMapping(front);
    if Contributes(h) && KeyOf(h) == k {
      assert EnglishMapping(hs) == m[KeyOf(h) := GlossOf(h)];
      assert LastKeyedAt(hs, |hs| - 1, k);
    } else {
      if Contributes(h) {
        assert EnglishMapping(hs) == m[KeyOf(h) := GlossOf(h)];
      } else {
        assert EnglishMapping(hs) == m;
      }
      EnglishMappingLast(front, k);
      var i :| LastKeyedAt(front, i, k) && m[k] == GlossOf(front[i]);
      assert hs[i] == front[i];
      assert !KeyedAt(hs, |hs| - 1, k);
      LastKeyedAtFront(hs, i, k);
    }
  }

  /** The last heading under `k` before the final one stays the last when
      the final heading is not under `k`. */
  lemma LastKeyedAtFront(hs: seq<Heading>, i: int, k: string)
    requires hs != [] && LastKeyedAt(hs[..|hs| - 1], i, k) && !KeyedAt(hs, |hs| - 1, k)
    ensures LastKeyedAt(hs, i, k)
  {
    KeyedAtFront(hs, i, k);
    forall j | i < j < |hs| - 1 ensures !KeyedAt(hs, j, k) {
      KeyedAtFront(hs, j, k);
    }
  }

  /** The loop of `scrape_english_mapping` over the parsed headings. */
  method ScrapeEnglishMapping(hs: seq<Heading>) returns (mapping: map<string, Gloss>)
    ensures mapping == EnglishMapping(hs)
  {
    mapping := map[];
    var i := 0;
    while i < |hs|
      invariant 0 <= i <= |hs|
      invariant mapping == EnglishMapping(hs[..i])
    {
      assert hs[..i + 1][..i] == hs[..i];
      var text := Strip(hs[i].text);
      if Contains(text, "(Sw:") {
        var engTerm := Strip(SplitHead(text, "(Sw:"));
        var swKey := Strip(TrimRightChar(SplitSecond(text, "(Sw:"), ')'));
        var p := hs[i].next;
        var engDef := if p.Some? then Strip(p.value) else "";
        mapping := mapping[Lower(swKey) := Gloss(engTerm, engDef)];
      }
      i := i + 1;
    }
    assert hs[..|hs|] == hs;
  }

  // ---------------------------------------------------------------------
  // main: the card fields and the import file
  // ---------------------------------------------------------------------

  /** The header: four directives, then the blank line `#deck:…\n\n` ends with. */
  const GlossaryHeader: seq<string> :=
    ["#separator:Tab", "#columns:Swedish\tDefinition", "#notetype:" + NoteType, "#deck:" + DeckName, ""]

  /** `eng_map.get(term.lower(), ("", ""))`. */
  function LookupGloss(eng: map<string, Gloss>, term: string): Gloss {
    if Lower(term) in eng then eng[Lower(term)] else Gloss("", "")
  }

  /** A term that no contributing English heading names (by its
      lower-cased key) looks up as two empty strings; otherwise it finds the
      gloss of the last English heading under that key. */
  lemma TermGloss(hs: seq<Heading>, term: string)
    ensures (forall i :: !KeyedAt(hs, i, Lower(term))) ==> LookupGloss(EnglishMapping(hs), term) == Gloss("", "")
    ensures (exists i :: KeyedAt(hs, i, Lower(term))) ==>
      exists i :: LastKeyedAt(hs, i, Lower(term)) && LookupGloss(EnglishMapping(hs), term) == GlossOf(hs[i])
  {
    EnglishMappingKeys(hs, Lower(term));
    if Lower(term) in EnglishMapping(hs) {
      EnglishMappingLast(hs, Lower(term));
    }
  }

  const TermOpen := "<div style=\"font-size:1.2em; font-weight:bold;\">"

  /** `eng_html`: the English term in bold and larger, then its definition;
      nothing when the English term is empty. */
  function EnglishHtml(g: Gloss): string {
    if g.term != "" then TermOpen + g.term + "</div>" + "<div>" + g.definition + "</div>" else ""
  }

  /** `eng_html` is empty exactly when the English term is; otherwise it
      opens with the bold term and closes with the definition's div. */
  lemma EnglishHtmlShape(g: Gloss)
    ensures EnglishHtml(g) == "" <==> g.term == ""
    ensures g.term != "" ==>
      StartsWith(EnglishHtml(g), TermOpen + g.term + "</div>")
      && EndsWith(EnglishHtml(g), "<div>" + g.definition + "</div>")
  {
    if g.term != "" {
      var a := TermOpen + g.term + "</div>";
      var b := "<div>" + g.definition + "</div>";
      assert EnglishHtml(g) == a + b;
      assert (a + b)[..|a|] == a;
      assert (a + b)[|a + b| - |b|..] == b;
    }
  }

  /** The back of the card: the Swedish definition, two breaks, `eng_html`. */
  function BackField(swDef: string, g: Gloss): string {
    swDef + "<br><br>" + EnglishHtml(g)
  }

  /** The back always opens with the Swedish definition and the two
      breaks, and holds nothing else when there is no English term. */
  lemma BackFieldShape(swDef: string, g: Gloss)
    ensures StartsWith(BackField(swDef, g), swDef + "<br><br>")
    ensures g.term == "" <==> BackField(swDef, g) == swDef + "<br><br>"
  {
    EnglishHtmlShape(g);
    var a := swDef + "<br><br>";
    assert BackField(swDef, g) == a + EnglishHtml(g);
    assert (a + EnglishHtml(g))[..|a|] == a;
  }

  /** The file the term's speech is saved under. */
  function AudioName(term: string): string {
    SanitizeFilename(term) + ".mp3"
  }

  /** The front of the card: the term and the sound marker for its file. */
  function FrontField(term: string): string {
    term + " [sound:" + AudioName(term) + "]"
  }

  /** The front opens with the term and carries the marker of the term's
      own audio file, whose name is made of allowed characters and `.mp3`. */
  lemma FrontFieldShape(term: string)
    ensures StartsWith(FrontField(term), term)
    ensures EndsWith(FrontField(term), " [sound:" + AudioName(term) + "]")
    ensures |AudioName(term)| == |term| + 4 && EndsWith(AudioName(term), ".mp3")
    ensures forall k :: 0 <= k < |term| ==> IsFileChar(AudioName(term)[k])
  {
    SanitizeFilenameShape(term);
    var tail := " [sound:" + AudioName(term) + "]";
    assert FrontField(term) == term + tail;
    assert (term + tail)[..|term|] == term;
    assert (term + tail)[|term|..] == tail;
    var n := AudioName(term);
    assert n[|term|..] == ".mp3";
    forall k | 0 <= k < |term| ensures IsFileChar(n[k]) {
      assert n[k] == SanitizeFilename(term)[k];
    }
  }

  /** The sanitized file name holds no tab, so the front holds one exactly
      when the term does. */
  lemma FrontFieldTabs(term: string)
    ensures '\t' in FrontField(term) <==> '\t' in term
  {
    SanitizeFilenameShape(term);
    var san := SanitizeFilename(term);
    forall k | 0 <= k < |san| ensures san[k] != '\t' {
      assert IsFileChar(san[k]);
    }
    assert FrontField(term) == term + " [sound:" + (san + ".mp3") + "]";
  }

  /** One line of the import file. */
  function GlossaryLine(e: Entry, eng: map<string, Gloss>): string {
    FrontField(e.term) + "\t" + BackField(e.definition, LookupGloss(eng, e.term))
  }

  /** Anki reads the line back: before the first tab is the front, and
      after it the back, as long as the term has no tab (the file name has
      none) and the back has none. */
  lemma GlossaryLineFields(e: Entry, eng: map<string, Gloss>)
    requires '\t' !in e.term
    ensures SplitHead(GlossaryLine(e, eng), "\t") == FrontField(e.term)
    ensures var back := BackField(e.definition, LookupGloss(eng, e.term));
      '\t' !in back ==> SplitSecond(GlossaryLine(e, eng), "\t") == back
  {
    var front := FrontField(e.term);
    var back := BackField(e.definition, LookupGloss(eng, e.term));
    FrontFieldTabs(e.term);
    SplitAtFirst(front, '\t', back);
    if '\t' !in back {
      ContainsChar(back, '\t');
      SplitHeadShape(back, "\t");
    }
  }

  /** What the loop of `main` has produced: the lines written, the media
      folder and the syntheses made. */
  datatype GlossaryDeck = GlossaryDeck(lines: seq<string>, files: set<string>, calls: seq<Call>)

  /** One pass of the loop: speech for the term unless its file exists,
      then the line. */
  function EntryStep(d: GlossaryDeck, e: Entry, eng: map<string, Gloss>): GlossaryDeck {
    var name := AudioName(e.term);
    var line := GlossaryLine(e, eng);
    if name in d.files then GlossaryDeck(d.lines + [line], d.files, d.calls)
    else GlossaryDeck(d.lines + [line], d.files + {name}, d.calls + [Synthesized(e.term, name)])
  }

  /** The specification of the loop of `main`, entry after entry. */
  function GlossaryRun(entries: seq<Entry>, eng: map<string, Gloss>, files: set<string>): GlossaryDeck
    decreases |entries|
  {
    if entries == [] then GlossaryDeck([], files, [])
    else EntryStep(GlossaryRun(entries[..|entries| - 1], eng, files), entries[|entries| - 1], eng)
  }

  /** Every entry gives exactly its own line, in order; afterwards every
      term's audio file is in the folder, the folder only grew, and each
      synthesis spoke a term into its file, which had been absent. */
  lemma {:induction false} GlossaryRunShape(entries: seq<Entry>, eng: map<string, Gloss>, files: set<string>)
    decreases |entries|
    ensures var d := GlossaryRun(entries, eng, files);
      && |d.lines| == |entries|
      && (forall i :: 0 <= i < |entries| ==> d.lines[i] == GlossaryLine(entries[i], eng))
      && (forall i :: 0 <= i < |entries| ==> AudioName(entries[i].term) in d.files)
      && files <= d.files
      && (forall c :: c in d.calls ==> c.Synthesized? && c.file == AudioName(c.text) && c.file !in files)
  {
    if entries != [] {
      var front := entries[..|entries| - 1];
      GlossaryRunShape(front, eng, files);
      var prev := GlossaryRun(front, eng, files);
      var d := GlossaryRun(entries, eng, files);
      var e := entries[|entries| - 1];
      assert d.lines == prev.lines + [GlossaryLine(e, eng)];
      forall i | 0 <= i < |entries| ensures d.lines[i] == GlossaryLine(entries[i], eng) {
        if i < |front| {
          assert d.lines[i] == prev.lines[i];
          assert entries[i] == front[i];
        }
      }
      forall i | 0 <= i < |entries| ensures AudioName(entries[i].term) in d.files {
        if i < |front| {
          assert entries[i] == front[i];
        }
      }
    }
  }

  /** No file is spoken twice: every call is a synthesis whose file is in
      the folder afterwards, and no two syntheses write the same file, so a
      term that repeats (or sanitizes to the same name) is spoken once. */
  lemma {:induction false} GlossarySpeaksOnce(entries: seq<Entry>, eng: map<string, Gloss>, files: set<string>)
    decreases |entries|
    ensures var d := GlossaryRun(entries, eng, files);
      && (forall c :: c in d.calls ==> c.Synthesized? && c.file in d.files)
      && (forall i, j :: 0 <= i < j < |d.calls| ==>
            d.calls[i].Synthesized? && d.calls[j].Synthesized? && d.calls[i].file != d.calls[j].file)
  {
    if entries != [] {
      var front := entries[..|entries| - 1];
      GlossarySpeaksOnce(front, eng, files);
      var prev := GlossaryRun(front, eng, files);
      var e := entries[|entries| - 1];
      var name := AudioName(e.term);
      if name !in prev.files {
        var d := GlossaryRun(entries, eng, files);
        assert d.calls == prev.calls + [Synthesized(e.term, name)];
        forall i, j | 0 <= i < j < |d.calls|
          ensures d.calls[i].Synthesized? && d.calls[j].Synthesized? && d.calls[i].file != d.calls[j].file
        {
          assert d.calls[i] == prev.calls[i];
          assert prev.calls[i] in prev.calls;
          if j < |prev.calls| {
            assert d.calls[j] == prev.calls[j];
          }
        }
      }
    }
  }

  /** The count `main` reports, and the lines it writes, do not depend on
      the media folder. */
  lemma {:induction false} GlossaryRunLines(entries: seq<Entry>, eng: map<string, Gloss>, files: set<string>, other: set<string>)
    decreases |entries|
    ensures GlossaryRun(entries, eng, files).lines == GlossaryRun(entries, eng, other).lines
  {
    if entries != [] {
      GlossaryRunLines(entries[..|entries| - 1], eng, files, other);
    }
  }

  /** A second run against the folder the first one left writes the same
      lines and synthesizes nothing. */
  lemma {:induction false} GlossaryRerun(entries: seq<Entry>, eng: map<string, Gloss>, files: set<string>, later: set<string>)
    decreases |entries|
    requires GlossaryRun(entries, eng, files).files <= later
    ensures var second := GlossaryRun(entries, eng, later);
      second.lines == GlossaryRun(entries, eng, files).lines && second.files == later && second.calls == []
  {
    GlossaryRunShape(entries, eng, files);
    GlossaryRunLines(entries, eng, files, later);
    if entries != [] {
      var front := entries[..|entries| - 1];
      GlossaryRunShape(front, eng, files);
      var e := entries[|entries| - 1];
      assert AudioName(e.term) in later;
      GlossaryRerun(front, eng, files, later);
    }
  }

  /** The loop of `main`: the header, then one line per Swedish entry,
      synthesizing speech for each term whose file is absent; the count is
      that of the entries. */
  method WriteGlossaryDeck(entries: seq<Entry>, eng: map<string, Gloss>, media: MediaDir)
    returns (lines: seq<string>, count: nat)
    modifies media
    ensures var d := GlossaryRun(entries, eng, old(media.files));
      && lines == GlossaryHeader + d.lines
      && media.files == d.files && media.calls == old(media.calls) + d.calls
    ensures count == |entries| == |lines| - |GlossaryHeader|
  {
    lines := GlossaryHeader;
    assert lines == GlossaryHeader + [];
    assert media.calls == old(media.calls) + [];
    var i := 0;
    while i < |entries|
      invariant 0 <= i <= |entries|
      invariant var d := GlossaryRun(entries[..i], eng, old(media.files));
        && lines == GlossaryHeader + d.lines
        && media.files == d.files && media.calls == old(media.calls) + d.calls
    {
      ghost var d := GlossaryRun(entries[..i], eng, old(media.files));
      assert entries[..i + 1][..i] == entries[..i];
      var e := entries[i];
      var filename := AudioName(e.term);
      if !media.Has(filename) {
        media.Synthesize(e.term, filename);
        assert media.calls == old(media.calls) + (d.calls + [Synthesized(e.term, filename)]);
      }
      var g := LookupGloss(eng, e.term);
      var back := BackField(e.definition, g);
      var front := FrontField(e.term);
      lines := lines + [front + "\t" + back];
      assert lines == GlossaryHeader + (d.lines + [GlossaryLine(e, eng)]);
      i := i + 1;
    }
    assert entries[..|entries|] == entries;
    GlossaryRunShape(entries, eng, old(media.files));
    count := |entries|;
  }

  /** `main`: scrape both pages, then write the deck. `count` is the number
      of Swedish entries, which `main` reports. */
  method BuildGlossary(swedish: seq<Heading>, english: seq<Heading>, media: MediaDir)
    returns (lines: seq<string>, count: nat)
    modifies media
    ensures var d := GlossaryRun(SwedishEntries(swedish), EnglishMapping(english), old(media.files));
      && lines == GlossaryHeader + d.lines
      && media.files == d.files && media.calls == old(media.calls) + d.calls
    ensures count == |SwedishEntries(swedish)| <= |swedish|
  {
    var entries := ScrapeSwedishTerms(swedish);
    var eng := ScrapeEnglishMapping(english);
    SwedishEntriesPairing(swedish);
    lines, count := WriteGlossaryDeck(entries, eng, media);
  }
}
