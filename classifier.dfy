/**
 * `get_verb_type` (scripts/generate_conjugations.py): the part-of-speech tag
 * is an opaque string, and the class is picked by ordered, first-match
 * substring tests on it. The verb markers use the simplified character 动.
 */
module Classifier {
  import opened Wrappers
  import opened Strings

  /** The inflection classes (`'V1'`, `'V2'`, `'VS'`, `'VK'`, `'ADJ_I'`, `'ADJ_NA'`). */
  datatype VerbType = Godan | Ichidan | Suru | Kuru | AdjI | AdjNa

  const GodanMarkers: seq<string> := ["动1", "五段"]
  const IchidanMarkers: seq<string> := ["动2", "一段"]
  const IrregularMarkers: seq<string> := ["动3", "カ変", "サ変"]
  const IAdjMarker: string := "イ形"
  const NaAdjMarker: string := "ナ形"

  /** `any(x in pos for x in markers)` */
  predicate HasMarker(pos: string, markers: seq<string>) {
    exists m :: m in markers && Contains(pos, m)
  }

  /** The irregular rule: the word's ending tells suru from kuru; anything else counts as suru. */
  function IrregularClass(word: string): VerbType {
    if EndsWith(word, "する") then Suru
    else if EndsWith(word, "くる") || EndsWith(word, "来る") then Kuru
    else Suru
  }

  /** `get_verb_type(word, pos)`; `None` for a tag with no conjugation marker. */
  function GetVerbType(word: string, pos: string): Option<VerbType> {
    if HasMarker(pos, GodanMarkers) then Some(Godan)
    else if HasMarker(pos, IchidanMarkers) then Some(Ichidan)
    else if HasMarker(pos, IrregularMarkers) then Some(IrregularClass(word))
    else if Contains(pos, IAdjMarker) then Some(AdjI)
    else if Contains(pos, NaAdjMarker) then Some(AdjNa)
    else None
  }

  /**
   * An independent statement of the rules: an ordered list of
   * (markers, class) pairs, read first match first.
   */
  datatype Rule = Fixed(markers: seq<string>, verbType: VerbType) | ByEnding(markers: seq<string>)

  const Rules: seq<Rule> := [
    Fixed(GodanMarkers, Godan),
    Fixed(IchidanMarkers, Ichidan),
    ByEnding(IrregularMarkers),
    Fixed([IAdjMarker], AdjI),
    Fixed([NaAdjMarker], AdjNa)
  ]

  function FirstMatch(rules: seq<Rule>, word: string, pos: string): Option<VerbType>
    decreases |rules|
  {
    if |rules| == 0 then None
    else if HasMarker(pos, rules[0].markers) then
      match rules[0]
      case Fixed(_, c) => Some(c)
      case ByEnding(_) => Some(IrregularClass(word))
    else FirstMatch(rules[1..], word, pos)
  }

  /** A one-marker list matches exactly when that marker occurs. */
  lemma SingleMarker(pos: string, m: string)
    ensures HasMarker(pos, [m]) <==> Contains(pos, m)
  {
    if Contains(pos, m) {
      assert m in [m];
    }
  }

  /** The classifier is the first-match reading of the rule list. */
  lemma GetVerbTypeIsFirstMatch(word: string, pos: string)
    ensures GetVerbType(word, pos) == FirstMatch(Rules, word, pos)
  {
    SingleMarker(pos, IAdjMarker);
    SingleMarker(pos, NaAdjMarker);
    var r1 := Rules[1..];
    var r2 := r1[1..];
    var r3 := r2[1..];
    var r4 := r3[1..];
    assert r1 == [Fixed(IchidanMarkers, Ichidan), ByEnding(IrregularMarkers), Fixed([IAdjMarker], AdjI), Fixed([NaAdjMarker], AdjNa)];
    assert r2 == [ByEnding(IrregularMarkers), Fixed([IAdjMarker], AdjI), Fixed([NaAdjMarker], AdjNa)];
    assert r3 == [Fixed([IAdjMarker], AdjI), Fixed([NaAdjMarker], AdjNa)];
    assert r4 == [Fixed([NaAdjMarker], AdjNa)];
    assert r4[1..] == [];
    assert FirstMatch(r4, word, pos) == if Contains(pos, NaAdjMarker) then Some(AdjNa) else None;
    assert FirstMatch(r3, word, pos) == if Contains(pos, IAdjMarker) then Some(AdjI) else FirstMatch(r4, word, pos);
    assert FirstMatch(r2, word, pos) ==
      if HasMarker(pos, IrregularMarkers) then Some(IrregularClass(word)) else FirstMatch(r3, word, pos);
    assert FirstMatch(r1, word, pos) == if HasMarker(pos, IchidanMarkers) then Some(Ichidan) else FirstMatch(r2, word, pos);
    assert FirstMatch(Rules, word, pos) == if HasMarker(pos, GodanMarkers) then Some(Godan) else FirstMatch(r1, word, pos);
  }

  /**
   * Precedence: a godan marker wins over everything, an ichidan marker over
   * the later rules, and so on; no marker at all gives `None`.
   */
  lemma ClassifierPrecedence(word: string, pos: string)
    ensures Contains(pos, "动1") || Contains(pos, "五段") ==> GetVerbType(word, pos) == Some(Godan)
    ensures !HasMarker(pos, GodanMarkers) && (Contains(pos, "动2") || Contains(pos, "一段")) ==>
      GetVerbType(word, pos) == Some(Ichidan)
    ensures !HasMarker(pos, GodanMarkers) && !HasMarker(pos, IchidanMarkers) && HasMarker(pos, IrregularMarkers) ==>
      GetVerbType(word, pos) == Some(IrregularClass(word))
    ensures !HasMarker(pos, GodanMarkers) && !HasMarker(pos, IchidanMarkers) && !HasMarker(pos, IrregularMarkers) ==>
      GetVerbType(word, pos) == (if Contains(pos, "イ形") then Some(AdjI) else if Contains(pos, "ナ形") then Some(AdjNa) else None)
  {
    if Contains(pos, "动1") {
      assert "动1" in GodanMarkers;
    }
    if Contains(pos, "五段") {
      assert "五段" in GodanMarkers;
    }
    if Contains(pos, "动2") {
      assert "动2" in IchidanMarkers;
    }
    if Contains(pos, "一段") {
      assert "一段" in IchidanMarkers;
    }
  }

  /** The irregular rule: する gives suru, くる/来る give kuru, anything else suru. */
  lemma IrregularEndings(word: string)
    ensures EndsWith(word, "する") ==> IrregularClass(word) == Suru
    ensures !EndsWith(word, "する") && (EndsWith(word, "くる") || EndsWith(word, "来る")) ==> IrregularClass(word) == Kuru
    ensures IrregularClass(word) == Kuru <==> EndsWith(word, "くる") || EndsWith(word, "来る")
  {
    if EndsWith(word, "する") {
      assert word[|word| - 2..][0] == 'す';
    }
    if EndsWith(word, "くる") {
      assert word[|word| - 2..][0] == 'く';
    }
    if EndsWith(word, "来る") {
      assert word[|word| - 2..][0] == '来';
    }
  }
}
