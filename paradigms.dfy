/**
 * The six paradigm generators (`conjugate_v1` ... `conjugate_adj_na`) and
 * the dispatcher `get_conjugations` of scripts/generate_conjugations.py.
 * Each generator fills a map from category to surface form by straight-line
 * assignments; the fixed suffix tables beside them state, independently,
 * which suffix each category takes.
 */
module Paradigms {
  import opened Wrappers
  import opened Strings
  import opened Catalog
  import opened Classifier

  /** category -> surface form */
  type Forms = map<Code, string>

  /** Python's `word[:-1]`. */
  function Stem(word: string): (stem: string)
    ensures |word| > 0 ==> word == stem + [word[|word| - 1]]
    ensures |word| == 0 ==> stem == ""
  {
    if |word| == 0 then "" else word[..|word| - 1]
  }

  /**
   * The order in which every generator fills its dict (and so the order
   * `items()` yields): the catalog order, read as a list of codes.
   */
  const DictOrder: seq<Code> := [
    PolitePresent, PolitePast, PoliteNegative, PolitePastNegative,
    PlainPresent, PlainPast, PlainNegative, PlainPastNegative,
    TeForm, Potential, Passive, Causative, CausativePassive,
    Imperative, Volitional, ConditionalBa, ConditionalTara
  ]

  lemma DictOrderIsCatalogOrder()
    ensures DictOrder == CatalogOrder()
  {
    CatalogWellFormed();
  }

  /** Every category has its place in the order. */
  lemma DictOrderComplete(c: Code)
    ensures c in DictOrder
  {
  }

  // ---------------------------------------------------------------- godan

  /** The dictionary-form endings of godan verbs. */
  const GodanEndings: set<char> := {'う', 'く', 'ぐ', 'す', 'つ', 'ぬ', 'ぶ', 'む', 'る'}

  /** u-row kana -> i-row, a-row, e-row and o-row kana of the same column. */
  const UToI: map<char, char> := map[
    'う' := 'い', 'く' := 'き', 'ぐ' := 'ぎ', 'す' := 'し', 'つ' := 'ち',
    'ぬ' := 'に', 'ぶ' := 'び', 'む' := 'み', 'る' := 'り']
  const UToA: map<char, char> := map[
    'う' := 'わ', 'く' := 'か', 'ぐ' := 'が', 'す' := 'さ', 'つ' := 'た',
    'ぬ' := 'な', 'ぶ' := 'ば', 'む' := 'ま', 'る' := 'ら']
  const UToE: map<char, char> := map[
    'う' := 'え', 'く' := 'け', 'ぐ' := 'げ', 'す' := 'せ', 'つ' := 'て',
    'ぬ' := 'ね', 'ぶ' := 'べ', 'む' := 'め', 'る' := 'れ']
  const UToO: map<char, char> := map[
    'う' := 'お', 'く' := 'こ', 'ぐ' := 'ご', 'す' := 'そ', 'つ' := 'と',
    'ぬ' := 'の', 'ぶ' := 'ぼ', 'む' := 'も', 'る' := 'ろ']

  /**
   * A reference for the row tables: the column of the kana chart each ending
   * belongs to, in a-i-u-e-o order (the わ-row stands in for the a-row of う).
   */
  function KanaColumn(k: char): (column: string)
    requires k in GodanEndings
    ensures |column| == 5
  {
    if k == 'う' then "わいうえお"
    else if k == 'く' then "かきくけこ"
    else if k == 'ぐ' then "がぎぐげご"
    else if k == 'す' then "さしすせそ"
    else if k == 'つ' then "たちつてと"
    else if k == 'ぬ' then "なにぬねの"
    else if k == 'ぶ' then "ばびぶべぼ"
    else if k == 'む' then "まみむめも"
    else "らりるれろ"
  }

  /**
   * The four tables cover exactly the nine endings, and each one moves an
   * ending to another vowel of its own column of the kana chart.
   */
  lemma RowTablesAreVowelShifts()
    ensures UToI.Keys == GodanEndings && UToA.Keys == GodanEndings
    ensures UToE.Keys == GodanEndings && UToO.Keys == GodanEndings
    ensures forall k :: k in GodanEndings ==>
      && KanaColumn(k)[2] == k
      && UToA[k] == KanaColumn(k)[0]
      && UToI[k] == KanaColumn(k)[1]
      && UToE[k] == KanaColumn(k)[3]
      && UToO[k] == KanaColumn(k)[4]
  {
  }

  /** Each row table is one-to-one: no two endings shift to the same kana. */
  lemma RowTablesInjective()
    ensures forall k, k' :: k in GodanEndings && k' in GodanEndings && k != k' ==>
      && UToI[k] != UToI[k'] && UToA[k] != UToA[k']
      && UToE[k] != UToE[k'] && UToO[k] != UToO[k']
  {
  }

  /** `conjugate_v1` looks the final kana up in the tables; any other ending raises. */
  predicate IsGodanWord(word: string) {
    |word| > 0 && word[|word| - 1] in UToI
  }

  /** The te-form and ta-form endings that follow the stem. */
  function TeTaSuffix(word: string): (suffix: (string, string))
    requires |word| > 0
  {
    var last := word[|word| - 1];
    if last in {'う', 'つ', 'る'} then ("って", "った")
    else if last in {'ぬ', 'ぶ', 'む'} then ("んで", "んだ")
    else if last == 'く' then
      if word == "行く" || word == "いく" then ("って", "った") else ("いて", "いた")
    else if last == 'ぐ' then ("いで", "いだ")
    else if last == 'す' then ("して", "した")
    else ("", "")
  }

  /** The form `conjugate_v1` assigns to one category. */
  function GodanForm(word: string, c: Code): string
    requires IsGodanWord(word)
  {
    var stem := word[..|word| - 1];
    var last := word[|word| - 1];
    var teTa := TeTaSuffix(word);
    match c
    case PolitePresent => stem + [UToI[last]] + "ます"
    case PolitePast => stem + [UToI[last]] + "ました"
    case PoliteNegative => stem + [UToI[last]] + "ません"
    case PolitePastNegative => stem + [UToI[last]] + "ませんでした"
    case PlainPresent => word
    case PlainPast => stem + teTa.1
    case PlainNegative => stem + [UToA[last]] + "ない"
    case PlainPastNegative => stem + [UToA[last]] + "なかった"
    case TeForm => stem + teTa.0
    case Potential => stem + [UToE[last]] + "る"
    case Passive => stem + [UToA[last]] + "れる"
    case Causative => stem + [UToA[last]] + "せる"
    case CausativePassive => stem + [UToA[last]] + "せられる"
    case Imperative => stem + [UToE[last]]
    case Volitional => stem + [UToO[last]] + "う"
    case ConditionalBa => stem + [UToE[last]] + "ば"
    case ConditionalTara => stem + teTa.1 + "ら"
  }

  /** `conjugate_v1`: godan verbs. */
  function ConjugateV1(word: string): (r: Forms)
    requires IsGodanWord(word)
    ensures r.Keys == AllCodes
    ensures r[PlainPresent] == word
    ensures forall c :: c in r ==> StartsWith(r[c], Stem(word))
    ensures r[ConditionalTara] == r[PlainPast] + "ら"
  {
    map c | c in AllCodes :: GodanForm(word, c)
  }

  /** The euphonic te/ta changes, by final kana, with the 行く/いく exception. */
  lemma GodanTeTa(word: string)
    requires IsGodanWord(word)
    ensures var r := ConjugateV1(word); var stem := Stem(word); var last := word[|word| - 1];
      && (last in {'う', 'つ', 'る'} ==> r[TeForm] == stem + "って" && r[PlainPast] == stem + "った")
      && (last in {'ぬ', 'ぶ', 'む'} ==> r[TeForm] == stem + "んで" && r[PlainPast] == stem + "んだ")
      && (last == 'く' && (word == "行く" || word == "いく") ==> r[TeForm] == stem + "って" && r[PlainPast] == stem + "った")
      && (last == 'く' && word != "行く" && word != "いく" ==> r[TeForm] == stem + "いて" && r[PlainPast] == stem + "いた")
      && (last == 'ぐ' ==> r[TeForm] == stem + "いで" && r[PlainPast] == stem + "いだ")
      && (last == 'す' ==> r[TeForm] == stem + "して" && r[PlainPast] == stem + "した")
  {
  }

  /** The te-form and the plain past share everything but a final て/た (or voiced で/だ). */
  lemma GodanTeTaVoicing(word: string)
    requires IsGodanWord(word)
    ensures var r := ConjugateV1(word);
      exists x: string ::
        (r[TeForm] == x + "て" && r[PlainPast] == x + "た") || (r[TeForm] == x + "で" && r[PlainPast] == x + "だ")
  {
    var r := ConjugateV1(word);
    var stem := Stem(word);
    var last := word[|word| - 1];
    if last in {'う', 'つ', 'る'} || (last == 'く' && (word == "行く" || word == "いく")) {
      assert r[TeForm] == (stem + "っ") + "て" && r[PlainPast] == (stem + "っ") + "た";
    } else if last in {'ぬ', 'ぶ', 'む'} {
      assert r[TeForm] == (stem + "ん") + "で" && r[PlainPast] == (stem + "ん") + "だ";
    } else if last == 'く' {
      assert r[TeForm] == (stem + "い") + "て" && r[PlainPast] == (stem + "い") + "た";
    } else if last == 'ぐ' {
      assert r[TeForm] == (stem + "い") + "で" && r[PlainPast] == (stem + "い") + "だ";
    } else {
      assert r[TeForm] == (stem + "し") + "て" && r[PlainPast] == (stem + "し") + "た";
    }
  }

  /** The row-shifted forms read their vowel off the ending's column of the kana chart. */
  lemma GodanRowForms(word: string)
    requires IsGodanWord(word)
    ensures var r := ConjugateV1(word); var stem := Stem(word); var col := KanaColumn(word[|word| - 1]);
      && r[PolitePresent] == stem + [col[1]] + "ます"
      && r[PolitePast] == stem + [col[1]] + "ました"
      && r[PoliteNegative] == stem + [col[1]] + "ません"
      && r[PolitePastNegative] == stem + [col[1]] + "ませんでした"
      && r[PlainNegative] == stem + [col[0]] + "ない"
      && r[PlainPastNegative] == stem + [col[0]] + "なかった"
      && r[Passive] == stem + [col[0]] + "れる"
      && r[Causative] == stem + [col[0]] + "せる"
      && r[CausativePassive] == stem + [col[0]] + "せられる"
      && r[Potential] == stem + [col[3]] + "る"
      && r[Imperative] == stem + [col[3]]
      && r[ConditionalBa] == stem + [col[3]] + "ば"
      && r[Volitional] == stem + [col[4]] + "う"
  {
    RowTablesAreVowelShifts();
  }

  /** 行く is the one く-verb whose te-form is 行って. */
  lemma IkuException()
    ensures ConjugateV1("行く")[TeForm] == "行って" && ConjugateV1("行く")[PlainPast] == "行った"
    ensures ConjugateV1("書く")[TeForm] == "書いて" && ConjugateV1("書く")[PlainPast] == "書いた"
  {
    assert Stem("行く") == "行";
    assert Stem("書く") == "書";
  }

  // -------------------------------------------------------------- ichidan

  /** The form `conjugate_v2` assigns to one category. */
  function IchidanForm(word: string, c: Code): string {
    var stem := Stem(word);
    match c
    case PolitePresent => stem + "ます"
    case PolitePast => stem + "ました"
    case PoliteNegative => stem + "ません"
    case PolitePastNegative => stem + "ませんでした"
    case PlainPresent => word
    case PlainPast => stem + "た"
    case PlainNegative => stem + "ない"
    case PlainPastNegative => stem + "なかった"
    case TeForm => stem + "て"
    case Potential => stem + "られる"
    case Passive => stem + "られる"
    case Causative => stem + "させる"
    case CausativePassive => stem + "させられる"
    case Imperative => stem + "ろ"
    case Volitional => stem + "よう"
    case ConditionalBa => stem + "れば"
    case ConditionalTara => stem + "たら"
  }

  /** `conjugate_v2`: ichidan verbs; the stem drops the last character, whatever it is. */
  function ConjugateV2(word: string): (r: Forms)
    ensures r.Keys == AllCodes
    ensures r[PlainPresent] == word
    ensures r[Potential] == r[Passive] == Stem(word) + "られる"
    ensures forall c :: c in r ==> StartsWith(r[c], Stem(word))
  {
    map c | c in AllCodes :: IchidanForm(word, c)
  }

  /**
   * What follows the stem depends on the category alone, for every category
   * but the dictionary form, and for that one too when both words end in る.
   */
  lemma IchidanFixedSuffix(w: string, w': string, c: Code)
    requires c != PlainPresent || (EndsWith(w, "る") && EndsWith(w', "る"))
    ensures ConjugateV2(w)[c][|Stem(w)|..] == ConjugateV2(w')[c][|Stem(w')|..]
  {
    AllCodesComplete(c);
    if c == PlainPresent {
      assert w == Stem(w) + "る" && w' == Stem(w') + "る";
    }
  }

  // ----------------------------------------------------------------- suru

  /** The noun part of a suru verb: the word without する, or the whole word. */
  function SuruPrefix(word: string): string {
    if word == "する" then ""
    else if EndsWith(word, "する") then word[..|word| - 2]
    else word
  }

  /** The special case for する itself agrees with the general rule. */
  lemma SuruPrefixRule(word: string)
    ensures SuruPrefix(word) == if EndsWith(word, "する") then word[..|word| - 2] else word
    ensures EndsWith(word, "する") ==> word == SuruPrefix(word) + "する"
  {
    if word == "する" {
      assert EndsWith(word, "する");
    }
  }

  /** The form `conjugate_vs` assigns to one category. */
  function SuruForm(word: string, c: Code): string {
    var prefix := SuruPrefix(word);
    match c
    case PolitePresent => prefix + "します"
    case PolitePast => prefix + "しました"
    case PoliteNegative => prefix + "しません"
    case PolitePastNegative => prefix + "しませんでした"
    case PlainPresent => prefix + "する"
    case PlainPast => prefix + "した"
    case PlainNegative => prefix + "しない"
    case PlainPastNegative => prefix + "しなかった"
    case TeForm => prefix + "して"
    case Potential => prefix + "できる"
    case Passive => prefix + "される"
    case Causative => prefix + "させる"
    case CausativePassive => prefix + "させられる"
    case Imperative => prefix + "しろ"
    case Volitional => prefix + "しよう"
    case ConditionalBa => prefix + "すれば"
    case ConditionalTara => prefix + "したら"
  }

  /** `conjugate_vs`: suru verbs and bare nouns used as suru verbs. */
  function ConjugateVs(word: string): (r: Forms)
    ensures r.Keys == AllCodes
    ensures forall c :: c in r ==> StartsWith(r[c], SuruPrefix(word))
    ensures r[Potential] == SuruPrefix(word) + "できる"
    ensures r[PlainPresent] == SuruPrefix(word) + "する"
    ensures EndsWith(word, "する") ==> r[PlainPresent] == word
    ensures !EndsWith(word, "する") ==> r[PlainPresent] == word + "する"
  {
    SuruPrefixRule(word);
    map c | c in AllCodes :: SuruForm(word, c)
  }

  /** What follows the prefix depends on the category alone. */
  lemma SuruFixedSuffix(w: string, w': string, c: Code)
    ensures ConjugateVs(w)[c][|SuruPrefix(w)|..] == ConjugateVs(w')[c][|SuruPrefix(w')|..]
  {
    AllCodesComplete(c);
  }

  /** The irregular potential: する gives できる, 勉強する gives 勉強できる. */
  lemma SuruPotential()
    ensures ConjugateVs("する")[Potential] == "できる"
    ensures ConjugateVs("勉強する")[Potential] == "勉強できる"
    ensures ConjugateVs("勉強")[PlainPresent] == "勉強する"
  {
    assert EndsWith("勉強する", "する");
    assert "勉強する"[..2] == "勉強";
    assert !EndsWith("勉強", "する");
  }

  // ----------------------------------------------------------------- kuru

  /** The kuru paradigm written with the kanji 来. */
  function KuruKanjiForm(c: Code): string {
    match c
    case PolitePresent => "来ます"
    case PolitePast => "来ました"
    case PoliteNegative => "来ません"
    case PolitePastNegative => "来ませんでした"
    case PlainPresent => "来る"
    case PlainPast => "来た"
    case PlainNegative => "来ない"
    case PlainPastNegative => "来なかった"
    case TeForm => "来て"
    case Potential => "来られる"
    case Passive => "来られる"
    case Causative => "来させる"
    case CausativePassive => "来させられる"
    case Imperative => "来い"
    case Volitional => "来よう"
    case ConditionalBa => "来れば"
    case ConditionalTara => "来たら"
  }

  /** The kuru paradigm written in kana. */
  function KuruKanaForm(c: Code): string {
    match c
    case PolitePresent => "きます"
    case PolitePast => "きました"
    case PoliteNegative => "きません"
    case PolitePastNegative => "きませんでした"
    case PlainPresent => "くる"
    case PlainPast => "きた"
    case PlainNegative => "こない"
    case PlainPastNegative => "こなかった"
    case TeForm => "きて"
    case Potential => "こられる"
    case Passive => "こられる"
    case Causative => "こさせる"
    case CausativePassive => "こさせられる"
    case Imperative => "こい"
    case Volitional => "こよう"
    case ConditionalBa => "くれば"
    case ConditionalTara => "きたら"
  }

  /** `conjugate_vk`: one of two literal paradigms, chosen by whether 来 occurs. */
  function ConjugateVk(word: string): (r: Forms)
    ensures r.Keys == AllCodes
    ensures r[PlainNegative] == if '来' in word then "来ない" else "こない"
    ensures '来' !in word ==> r[PlainPresent] == "くる" && r[ConditionalBa] == "くれば"
  {
    if '来' in word then map c | c in AllCodes :: KuruKanjiForm(c)
    else map c | c in AllCodes :: KuruKanaForm(c)
  }

  /** Nothing about the word matters except whether it contains 来. */
  lemma KuruDependsOnlyOnKanji(w: string, w': string)
    requires ('来' in w) == ('来' in w')
    ensures ConjugateVk(w) == ConjugateVk(w')
  {
  }

  /**
   * The two tables spell the same readings: each kanji form is the kana form
   * with its leading き/く/こ written 来.
   */
  lemma KuruTablesAgree(c: Code)
    ensures |KuruKanaForm(c)| > 0 && KuruKanaForm(c)[0] in {'き', 'く', 'こ'}
    ensures KuruKanjiForm(c) == "来" + KuruKanaForm(c)[1..]
  {
  }

  /** 来る gives 来ない and くる gives こない. */
  lemma KuruNegatives()
    ensures ConjugateVk("来る")[PlainNegative] == "来ない"
    ensures ConjugateVk("くる")[PlainNegative] == "こない"
  {
    assert "来る"[0] == '来';
    assert forall i :: 0 <= i < |"くる"| ==> "くる"[i] != '来';
  }

  // ---------------------------------------------------------- i-adjective

  /** The fully literal paradigm of いい. */
  function IiForm(c: Code): string
    requires c in AdjectiveCodes
  {
    match c
    case PolitePresent => "いいです"
    case PolitePast => "よかったです"
    case PoliteNegative => "よくないです"
    case PolitePastNegative => "よくなかったです"
    case PlainPresent => "いい"
    case PlainPast => "よかった"
    case PlainNegative => "よくない"
    case PlainPastNegative => "よくなかった"
    case TeForm => "よくて"
    case ConditionalBa => "よければ"
    case ConditionalTara => "よかったら"
  }

  /** The form `conjugate_adj_i` assigns to one category of a regular i-adjective. */
  function AdjIForm(word: string, c: Code): string
    requires c in AdjectiveCodes
  {
    var stem := Stem(word);
    match c
    case PolitePresent => word + "です"
    case PolitePast => stem + "かったです"
    case PoliteNegative => stem + "くないです"
    case PolitePastNegative => stem + "くなかったです"
    case PlainPresent => word
    case PlainPast => stem + "かった"
    case PlainNegative => stem + "くない"
    case PlainPastNegative => stem + "くなかった"
    case TeForm => stem + "くて"
    case ConditionalBa => stem + "ければ"
    case ConditionalTara => stem + "かったら"
  }

  /** Every regular i-adjective form extends the stem. */
  lemma AdjIFormsExtendStem(word: string)
    ensures forall c :: c in AdjectiveCodes ==> StartsWith(AdjIForm(word, c), Stem(word))
  {
    forall c | c in AdjectiveCodes
      ensures StartsWith(AdjIForm(word, c), Stem(word))
    {
      assert Stem(word) <= word;
    }
  }

  /** `conjugate_adj_i`: i-adjectives, with いい hard-coded. */
  function ConjugateAdjI(word: string): (r: Forms)
    ensures r.Keys == AdjectiveCodes
    ensures word == "いい" ==> r[PlainPast] == "よかった"
    ensures word != "いい" ==> r[PolitePresent] == word + "です" && r[PlainPresent] == word
    ensures word != "いい" ==> forall c :: c in r ==> StartsWith(r[c], Stem(word))
  {
    AdjectiveCodesListed();
    AdjIFormsExtendStem(word);
    if word == "いい" then map c | c in AdjectiveCodes :: IiForm(c)
    else map c | c in AdjectiveCodes :: AdjIForm(word, c)
  }

  /** For a regular i-adjective what follows the stem depends on the category alone. */
  lemma AdjIFixedSuffix(w: string, w': string, c: Code)
    requires w != "いい" && w' != "いい" && c in AdjectiveCodes
    requires (c != PolitePresent && c != PlainPresent) || (EndsWith(w, "い") && EndsWith(w', "い"))
    ensures ConjugateAdjI(w)[c][|Stem(w)|..] == ConjugateAdjI(w')[c][|Stem(w')|..]
  {
    AdjectiveCodesListed();
    if c == PolitePresent || c == PlainPresent {
      assert w == Stem(w) + "い" && w' == Stem(w') + "い";
    }
  }

  /** Category by category, いい is よい except for its two present forms. */
  lemma IiFormIsYoi(c: Code)
    requires c in AdjectiveCodes
    ensures IiForm(c) ==
      if c == PolitePresent then "いいです" else if c == PlainPresent then "いい" else AdjIForm("よい", c)
  {
    assert Stem("よい") == "よ";
  }

  /** The いい table is the regular paradigm of よい, except that its two present forms keep いい. */
  lemma IiIsYoi()
    ensures ConjugateAdjI("いい") ==
      ConjugateAdjI("よい")[PolitePresent := "いいです"][PlainPresent := "いい"]
  {
    AdjectiveCodesListed();
    var ii := ConjugateAdjI("いい");
    var yoi := ConjugateAdjI("よい")[PolitePresent := "いいです"][PlainPresent := "いい"];
    forall c | c in AdjectiveCodes
      ensures ii[c] == yoi[c]
    {
      IiFormIsYoi(c);
    }
    assert ii.Keys == yoi.Keys;
  }

  // --------------------------------------------------------- na-adjective

  /** The form `conjugate_adj_na` assigns to one category. */
  function AdjNaForm(word: string, c: Code): string
    requires c in AdjectiveCodes
  {
    match c
    case PolitePresent => word + "です"
    case PolitePast => word + "でした"
    case PoliteNegative => word + "じゃないです"
    case PolitePastNegative => word + "じゃなかったです"
    case PlainPresent => word + "だ"
    case PlainPast => word + "だった"
    case PlainNegative => word + "じゃない"
    case PlainPastNegative => word + "じゃなかった"
    case TeForm => word + "で"
    case ConditionalBa => word + "ならば"
    case ConditionalTara => word + "だったら"
  }

  /** `conjugate_adj_na`: na-adjectives, the word taken to be the stem. */
  function ConjugateAdjNa(word: string): (r: Forms)
    ensures r.Keys == AdjectiveCodes
    ensures forall c :: c in r ==> StartsWith(r[c], word) && |r[c]| > |word|
  {
    AdjectiveCodesListed();
    map c | c in AdjectiveCodes :: AdjNaForm(word, c)
  }

  /** Every na-adjective form is the word plus a suffix fixed by the category. */
  lemma AdjNaFixedSuffix(w: string, w': string, c: Code)
    requires c in AdjectiveCodes
    ensures ConjugateAdjNa(w)[c][|w|..] == ConjugateAdjNa(w')[c][|w'|..]
  {
    AdjectiveCodesListed();
  }

  // ----------------------------------------------------------- dispatcher

  /** What `get_conjugations` needs to not raise: a godan entry must end in a godan kana. */
  predicate Conjugable(word: string, pos: string) {
    GetVerbType(word, pos) == Some(Godan) ==> IsGodanWord(word)
  }

  predicate IsVerbType(t: VerbType) {
    t in {Godan, Ichidan, Suru, Kuru}
  }

  /** `get_conjugations`: classify, then run that class's generator; `None` when unclassified. */
  function GetConjugations(word: string, pos: string): (r: Option<Forms>)
    requires Conjugable(word, pos)
    ensures r.None? <==> GetVerbType(word, pos).None?
    ensures r.Some? ==> r.value.Keys <= AllCodes && r.value != map[]
    ensures r.Some? && IsVerbType(GetVerbType(word, pos).value) ==> r.value.Keys == AllCodes
    ensures r.Some? && !IsVerbType(GetVerbType(word, pos).value) ==>
      r.value.Keys == AdjectiveCodes && r.value.Keys !! VerbOnlyCodes
  {
    AdjectiveCodesListed();
    match GetVerbType(word, pos)
    case None => None
    case Some(Godan) => Some(ConjugateV1(word))
    case Some(Ichidan) => Some(ConjugateV2(word))
    case Some(Suru) => Some(ConjugateVs(word))
    case Some(Kuru) => Some(ConjugateVk(word))
    case Some(AdjI) => Some(ConjugateAdjI(word))
    case Some(AdjNa) => Some(ConjugateAdjNa(word))
  }
}
