/**
 * The part-of-speech calibration step of scripts/calibrate_pos.py: for each
 * word, a detected grammar type (from the tilde markers, or from the
 * dictionary and tagger lookups, which are inputs here) is merged into the
 * word's `・`-separated part-of-speech tag, and the rows whose tag should
 * change are collected as updates.
 */
module CalibratePos {
  import opened Wrappers
  import opened Strings

  /** The wave dash U+301C and the ASCII tilde. */
  const Tilde: char := '〜'
  const AsciiTilde: char := '~'

  /** The separator of tag parts, U+30FB. */
  const Dot: char := '・'

  /** `s.replace(c, '')` */
  function Strip(s: string, c: char): (r: string)
    ensures |r| <= |s|
    ensures forall x :: x in r <==> x in s && x != c
    decreases |s|
  {
    if |s| == 0 then ""
    else (if s[0] == c then "" else [s[0]]) + Strip(s[1..], c)
  }

  /** `word.replace('〜', '').replace('~', '')` */
  function CleanWord(word: string): string {
    Strip(Strip(word, Tilde), AsciiTilde)
  }

  /** A word is skipped exactly when it is made of tildes alone (or is empty). */
  lemma CleanWordEmpty(word: string)
    ensures CleanWord(word) == "" <==> forall i :: 0 <= i < |word| ==> word[i] == Tilde || word[i] == AsciiTilde
  {
    if CleanWord(word) != "" {
      var x := CleanWord(word)[0];
      assert x in CleanWord(word);
      var i :| 0 <= i < |word| && word[i] == x;
    }
    if exists i :: 0 <= i < |word| && word[i] != Tilde && word[i] != AsciiTilde {
      var i :| 0 <= i < |word| && word[i] != Tilde && word[i] != AsciiTilde;
      assert word[i] in Strip(word, Tilde);
      assert word[i] in CleanWord(word);
    }
  }

  /** Step 1 of the detection: where the wave dash sits in the word. */
  function DetectTilde(word: string): (r: Option<string>)
    ensures r.None? <==> Tilde !in word
    ensures r == Some("Middle Phrase") <==> |word| > 0 && word[0] == Tilde && word[|word| - 1] == Tilde
    ensures r == Some("接尾/Suffix") <==> |word| > 0 && word[0] == Tilde && word[|word| - 1] != Tilde
    ensures r == Some("接頭/Prefix") <==> |word| > 0 && word[0] != Tilde && word[|word| - 1] == Tilde
    ensures r == Some("文法/Grammar") <==> Tilde in word && word[0] != Tilde && word[|word| - 1] != Tilde
  {
    if Tilde in word then
      if StartsWith(word, [Tilde]) && EndsWith(word, [Tilde]) then Some("Middle Phrase")
      else if StartsWith(word, [Tilde]) then Some("接尾/Suffix")
      else if EndsWith(word, [Tilde]) then Some("接頭/Prefix")
      else Some("文法/Grammar")
    else None
  }

  /** A word that survives the skip and reads as a middle phrase has a non-tilde between its two tildes. */
  lemma MiddlePhraseLength(word: string)
    requires CleanWord(word) != "" && DetectTilde(word) == Some("Middle Phrase")
    ensures |word| >= 3
  {
    CleanWordEmpty(word);
    var i :| 0 <= i < |word| && word[i] != Tilde && word[i] != AsciiTilde;
    assert i != 0 && i != |word| - 1;
  }

  /** `detected_type.split('/')[0]` */
  function GrammarKanji(detected: string): string {
    Split(detected, '/')[0]
  }

  /** Full term -> the abbreviations it replaces. */
  const Abbreviations: map<string, seq<string>> := map[
    "接続詞" := ["接"],
    "連体詞" := ["連体"],
    "副詞" := ["副"],
    "接頭辞" := ["接頭"],
    "接尾辞" := ["接尾"],
    "助詞" := ["助"]
  ]

  /** `abbreviations.get(grammar_kanji, [])` */
  function TargetAbbrs(kanji: string): seq<string> {
    if kanji in Abbreviations then Abbreviations[kanji] else []
  }

  /** Every part equal to an abbreviation, replaced by the full term. */
  function ReplaceAbbrs(parts: seq<string>, kanji: string, abbrs: seq<string>): (r: seq<string>)
    ensures |r| == |parts|
  {
    seq(|parts|, i requires 0 <= i < |parts| => if parts[i] in abbrs then kanji else parts[i])
  }

  predicate AnyAbbr(parts: seq<string>, abbrs: seq<string>) {
    exists i :: 0 <= i < |parts| && parts[i] in abbrs
  }

  /** The new list of parts: abbreviations replaced, or else the term appended. */
  function MergedParts(parts: seq<string>, kanji: string, abbrs: seq<string>): seq<string> {
    if AnyAbbr(parts, abbrs) then ReplaceAbbrs(parts, kanji, abbrs)
    else ReplaceAbbrs(parts, kanji, abbrs) + [kanji]
  }

  /** The tag the merge branch proposes. */
  function MergedPos(current: string, kanji: string): string {
    Join(MergedParts(Split(current, Dot), kanji, TargetAbbrs(kanji)), Dot)
  }

  /** The merge step (the loop building `new_parts` with its `replaced` flag). */
  method MergePos(current: string, kanji: string) returns (proposed: string)
    ensures proposed == MergedPos(current, kanji)
  {
    var targetAbbrs := TargetAbbrs(kanji);
    var parts := Split(current, Dot);
    var newParts: seq<string> := [];
    var replaced := false;
    for i := 0 to |parts|
      invariant newParts == ReplaceAbbrs(parts[..i], kanji, targetAbbrs)
      invariant replaced <==> AnyAbbr(parts[..i], targetAbbrs)
    {
      assert parts[..i + 1][..i] == parts[..i];
      if parts[i] in targetAbbrs {
        newParts := newParts + [kanji];
        replaced := true;
      } else {
        newParts := newParts + [parts[i]];
      }
      assert parts[..i + 1][i] == parts[i];
    }
    assert parts[..|parts|] == parts;
    if !replaced {
      newParts := newParts + [kanji];
    }
    proposed := Join(newParts, Dot);
  }

  /** The merged tag always contains the term, so it differs from a tag that lacked it. */
  lemma MergeContainsKanji(current: string, kanji: string)
    ensures Contains(MergedPos(current, kanji), kanji)
    ensures !Contains(current, kanji) ==> MergedPos(current, kanji) != current
  {
    var parts := Split(current, Dot);
    var abbrs := TargetAbbrs(kanji);
    var merged := MergedParts(parts, kanji, abbrs);
    if AnyAbbr(parts, abbrs) {
      var i :| 0 <= i < |parts| && parts[i] in abbrs;
      JoinContainsPart(merged, i, Dot);
    } else {
      JoinContainsPart(merged, |merged| - 1, Dot);
    }
  }

  /**
   * Replacing keeps the number of parts and appending adds one; every part
   * that was an abbreviation now holds the term, and the other parts are kept.
   */
  lemma MergePartCount(current: string, kanji: string)
    requires Dot !in kanji
    ensures var parts := Split(current, Dot); var after := Split(MergedPos(current, kanji), Dot);
      && |after| == |parts| + (if AnyAbbr(parts, TargetAbbrs(kanji)) then 0 else 1)
      && (forall i :: 0 <= i < |parts| ==>
            after[i] == if parts[i] in TargetAbbrs(kanji) then kanji else parts[i])
      && (!AnyAbbr(parts, TargetAbbrs(kanji)) ==> after[|parts|] == kanji)
  {
    var parts := Split(current, Dot);
    var merged := MergedParts(parts, kanji, TargetAbbrs(kanji));
    SplitPartsFree(current, Dot);
    assert forall k :: 0 <= k < |merged| ==> Dot !in merged[k];
    SplitJoin(merged, Dot);
  }

  /** A term without abbreviations is appended after a `・`. */
  lemma MergeWithoutAbbreviation(current: string, kanji: string)
    requires kanji !in Abbreviations
    ensures MergedPos(current, kanji) == current + [Dot] + kanji
  {
    var parts := Split(current, Dot);
    assert ReplaceAbbrs(parts, kanji, []) == parts;
    JoinAppend(parts, kanji, Dot);
    JoinSplit(current, Dot);
  }

  /** `current_pos or ''` */
  function OrEmpty(pos: Option<string>): string {
    if pos.Some? then pos.value else ""
  }

  /** `if detected_type:` */
  predicate Truthy(s: Option<string>) {
    s.Some? && s.value != ""
  }

  /**
   * The tag proposed for a word, or `None` when `should_update` stays false:
   * the empty-tag case, the merge when the term is missing, then the affix
   * fallback for words with a wave dash.
   */
  function ProposedPos(word: string, currentPos: Option<string>, detected: Option<string>): Option<string> {
    var current := OrEmpty(currentPos);
    var fromDetection: Option<string> :=
      if Truthy(detected) then
        var kanji := GrammarKanji(detected.value);
        if current == "" then Some(kanji)
        else if !Contains(current, kanji) then Some(MergedPos(current, kanji))
        else None
      else None;
    if fromDetection.Some? then fromDetection
    else if Tilde in word && !Contains(current, "接") && !Contains(current, "造") then
      Some((if current != "" then current + [Dot] else "") + "接辞/Affix")
    else None
  }

  /** The proposal step for one word: whether its tag should change, and the tag it would get. */
  method Propose(word: string, currentPos: Option<string>, detected: Option<string>)
    returns (shouldUpdate: bool, proposed: Option<string>)
    ensures shouldUpdate <==> ProposedPos(word, currentPos, detected).Some?
    ensures shouldUpdate ==> proposed == ProposedPos(word, currentPos, detected)
    ensures !shouldUpdate ==> proposed == currentPos
  {
    shouldUpdate := false;
    proposed := currentPos;
    if detected.Some? && detected.value != "" {
      var kanji := GrammarKanji(detected.value);
      if currentPos.None? || currentPos.value == "" {
        proposed := Some(kanji);
        shouldUpdate := true;
      } else if !Contains(currentPos.value, kanji) {
        var merged := MergePos(currentPos.value, kanji);
        proposed := Some(merged);
        shouldUpdate := true;
      }
    }
    if Tilde in word && !shouldUpdate {
      var current := OrEmpty(currentPos);
      if !Contains(current, "接") && !Contains(current, "造") {
        proposed := Some((if current != "" then current + [Dot] else "") + "接辞/Affix");
        shouldUpdate := true;
      }
    }
  }

  /** With a detected type and no tag, the proposal is the type's kanji part. */
  lemma EmptyTagTakesKanji(word: string, currentPos: Option<string>, d: string)
    requires OrEmpty(currentPos) == "" && d != ""
    ensures ProposedPos(word, currentPos, Some(d)) == Some(GrammarKanji(d))
    ensures Contains(d, GrammarKanji(d))
  {
    JoinSplit(d, '/');
    JoinContainsPart(Split(d, '/'), 0, '/');
  }

  /** A tag that already contains the kanji is left to the affix fallback alone. */
  lemma KanjiPresentNoMerge(word: string, current: string, d: string)
    requires current != "" && d != "" && Contains(current, GrammarKanji(d))
    ensures ProposedPos(word, Some(current), Some(d)) ==
      if Tilde in word && !Contains(current, "接") && !Contains(current, "造")
      then Some(current + [Dot] + "接辞/Affix") else None
  {
  }

  /**
   * With a detected type, a tag that lacks the kanji is always updated, and
   * every proposed tag contains the kanji.
   */
  lemma DetectionProposalContainsKanji(word: string, currentPos: Option<string>, d: string)
    requires d != ""
    ensures !Contains(OrEmpty(currentPos), GrammarKanji(d)) ==> ProposedPos(word, currentPos, Some(d)).Some?
    ensures var r := ProposedPos(word, currentPos, Some(d));
      r.Some? ==> Contains(r.value, GrammarKanji(d))
  {
    var kanji := GrammarKanji(d);
    var current := OrEmpty(currentPos);
    if current == "" {
      ContainsMiddle("", kanji, "");
      assert "" + kanji + "" == kanji;
    } else if !Contains(current, kanji) {
      MergeContainsKanji(current, kanji);
    } else if Tilde in word && !Contains(current, "接") && !Contains(current, "造") {
      ContainsMiddle("", current, [Dot] + "接辞/Affix");
      assert "" + current + ([Dot] + "接辞/Affix") == current + [Dot] + "接辞/Affix";
      ContainsTransitive(current + [Dot] + "接辞/Affix", current, kanji);
    }
  }

  /** Without a detected type, only the affix fallback can propose anything. */
  lemma AffixFallback(word: string, currentPos: Option<string>, detected: Option<string>)
    requires !Truthy(detected)
    ensures ProposedPos(word, currentPos, detected).Some? <==>
      Tilde in word && !Contains(OrEmpty(currentPos), "接") && !Contains(OrEmpty(currentPos), "造")
    ensures ProposedPos(word, currentPos, detected).Some? ==>
      ProposedPos(word, currentPos, detected).value ==
        (if OrEmpty(currentPos) != "" then OrEmpty(currentPos) + "・" else "") + "接辞/Affix"
  {
  }


  /**
   * The labels for prefixes, suffixes, grammar, auxiliaries and middle
   * phrases have no abbreviation entry (the entries are for 接頭辞 and 接尾辞,
   * not for the 接頭 and 接尾 the labels give).
   */
  lemma UnabbreviatedKanji()
    ensures "接頭" !in Abbreviations && "接尾" !in Abbreviations && "文法" !in Abbreviations
    ensures "助動詞" !in Abbreviations && "Middle Phrase" !in Abbreviations
  {
    NotAKey("接頭");
    NotAKey("接尾");
    NotAKey("文法");
    NotAKey("助動詞");
    NotAKey("Middle Phrase");
  }

  /**
   * A label `kanji/English` whose kanji has no abbreviation entry and is not
   * yet in a non-empty tag makes the proposal `tag・kanji`.
   */
  lemma LabelAppended(word: string, current: string, head: string, tail: string)
    requires '/' !in head && head !in Abbreviations
    requires current != "" && !Contains(current, head)
    ensures ProposedPos(word, Some(current), Some(head + "/" + tail)) == Some(current + [Dot] + head)
  {
    SplitPrefix(head, tail);
    MergeWithoutAbbreviation(current, head);
  }

  /** The keys are three characters long, or two ending in 詞. */
  lemma NotAKey(k: string)
    requires (|k| == 2 && k[1] != '詞') || (|k| == 3 && k[1] !in {'続', '体', '頭', '尾'}) || |k| > 3
    ensures k !in Abbreviations
  {
    assert Abbreviations.Keys == {"接続詞", "連体詞", "副詞", "接頭辞", "接尾辞", "助詞"};
  }

  /** The part before the first `/`. */
  lemma SplitPrefix(head: string, tail: string)
    requires '/' !in head
    ensures GrammarKanji(head + "/" + tail) == head
  {
    var tailParts := Split(tail, '/');
    SplitPartsFree(tail, '/');
    JoinSplit(tail, '/');
    var parts := [head] + tailParts;
    assert forall k :: 0 <= k < |parts| ==> '/' !in parts[k];
    assert Join(parts, '/') == head + "/" + tail;
    SplitJoin(parts, '/');
  }


  // ------------------------------------------------------------ row loop

  /** A row of `words`: id, word and (possibly NULL) part_of_speech. */
  datatype Row = Row(id: int, word: string, pos: Option<string>)

  /** One entry of `updates`: (proposed_pos, word_id, word, current_pos). */
  datatype Update = Update(proposed: string, id: int, word: string, oldPos: Option<string>)

  /** The updates the loop collects, given each row's detected type. */
  function Updates(rows: seq<Row>, detected: seq<Option<string>>): (us: seq<Update>)
    requires |detected| == |rows|
    ensures |us| <= |rows|
    decreases |rows|
  {
    if |rows| == 0 then []
    else
      var n := |rows| - 1;
      var before := Updates(rows[..n], detected[..n]);
      var row := rows[n];
      if CleanWord(row.word) == "" then before
      else
        var p := ProposedPos(row.word, row.pos, detected[n]);
        if p.Some? then before + [Update(p.value, row.id, row.word, row.pos)] else before
  }

  /** The analysis loop of `analyze_and_update`; the type detection of each row is given. */
  method CollectUpdates(rows: seq<Row>, detected: seq<Option<string>>) returns (updates: seq<Update>)
    requires |detected| == |rows|
    ensures updates == Updates(rows, detected)
  {
    updates := [];
    for i := 0 to |rows|
      invariant updates == Updates(rows[..i], detected[..i])
    {
      assert rows[..i + 1][..i] == rows[..i];
      assert detected[..i + 1][..i] == detected[..i];
      var row := rows[i];
      if CleanWord(row.word) == "" {
        continue;
      }
      var shouldUpdate, proposed := Propose(row.word, row.pos, detected[i]);
      if shouldUpdate {
        updates := updates + [Update(proposed.value, row.id, row.word, row.pos)];
      }
    }
    assert rows[..|rows|] == rows;
    assert detected[..|rows|] == detected;
  }

  /**
   * Every update comes from a row whose word is not all tildes and carries
   * that row's id, word and old tag, with the tag proposed for it.
   */
  lemma {:induction false} UpdatesSound(rows: seq<Row>, detected: seq<Option<string>>, k: nat)
    returns (i: nat)
    requires |detected| == |rows| && k < |Updates(rows, detected)|
    ensures i < |rows|
    ensures var u := Updates(rows, detected)[k];
      && u.id == rows[i].id && u.word == rows[i].word && u.oldPos == rows[i].pos
      && CleanWord(rows[i].word) != ""
      && ProposedPos(rows[i].word, rows[i].pos, detected[i]) == Some(u.proposed)
    decreases |rows|
  {
    var n := |rows| - 1;
    var before := Updates(rows[..n], detected[..n]);
    if k < |before| {
      i := UpdatesSound(rows[..n], detected[..n], k);
    } else {
      i := n;
    }
  }
}
