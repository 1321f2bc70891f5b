/**
 * scripts/analyze_grammar.py: which part-of-speech tags count as grammar,
 * which category a grammar tag falls in (first match in the dict's order),
 * and the counters the report is built from.
 */
module AnalyzeGrammar {
  import opened Wrappers
  import opened Strings

  /** The keywords that make a tag a grammar tag. */
  const GrammarTypes: seq<string> := [
    "成句", "連語", "接", "助詞", "副助", "接助", "終助",
    "助動詞", "補動", "接頭", "接尾", "造", "形動トタル"
  ]

  /** `is_grammar`: `None` is not grammar; otherwise some keyword occurs in the tag. */
  predicate IsGrammar(pos: Option<string>) {
    pos.Some? && exists g :: g in GrammarTypes && Contains(pos.value, g)
  }

  datatype Category =
    | PrefixSuffix | Conjunction | Particle | CompoundPhrase | AuxiliaryVerb | AdjectivalVerb
    | Other

  /** The `categories` dict, in its order. */
  const Categories: seq<(Category, seq<string>)> := [
    (PrefixSuffix, ["接頭", "接尾", "造"]),
    (Conjunction, ["接", "接助", "順接"]),
    (Particle, ["助詞", "副助", "終助"]),
    (CompoundPhrase, ["連語", "成句"]),
    (AuxiliaryVerb, ["助動詞", "補動"]),
    (AdjectivalVerb, ["形動トタル"])
  ]

  /** `any(k in pos for k in keywords)` */
  predicate AnyKeyword(pos: string, keywords: seq<string>) {
    exists k :: k in keywords && Contains(pos, k)
  }

  /** The first category with a keyword in the tag, else `Other`. */
  function FirstCategory(cats: seq<(Category, seq<string>)>, pos: string): Category
    decreases |cats|
  {
    if |cats| == 0 then Other
    else if AnyKeyword(pos, cats[0].1) then cats[0].0
    else FirstCategory(cats[1..], pos)
  }

  function Categorize(pos: string): Category {
    FirstCategory(Categories, pos)
  }

  /** First match finds a category exactly when some keyword of some category occurs. */
  lemma {:induction false} FirstCategoryFinds(cats: seq<(Category, seq<string>)>, pos: string)
    requires forall i :: 0 <= i < |cats| ==> cats[i].0 != Other
    ensures FirstCategory(cats, pos) != Other <==> exists i :: 0 <= i < |cats| && AnyKeyword(pos, cats[i].1)
    ensures FirstCategory(cats, pos) != Other ==>
      exists i :: 0 <= i < |cats| && AnyKeyword(pos, cats[i].1) && cats[i].0 == FirstCategory(cats, pos)
    decreases |cats|
  {
    if |cats| > 0 {
      FirstCategoryFinds(cats[1..], pos);
      if exists i :: 0 <= i < |cats[1..]| && AnyKeyword(pos, cats[1..][i].1) {
        var i :| 0 <= i < |cats[1..]| && AnyKeyword(pos, cats[1..][i].1);
        assert AnyKeyword(pos, cats[i + 1].1);
      }
      if exists i :: 0 <= i < |cats| && AnyKeyword(pos, cats[i].1) {
        var i :| 0 <= i < |cats| && AnyKeyword(pos, cats[i].1);
        if i > 0 {
          assert AnyKeyword(pos, cats[1..][i - 1].1);
        }
      }
    }
  }

  /** The category loop of `analyze_grammar`, with its `break`. */
  method MatchCategory(pos: string) returns (matched: Category)
    ensures matched == Categorize(pos)
  {
    matched := Other;
    var i := 0;
    while i < |Categories|
      invariant 0 <= i <= |Categories|
      invariant FirstCategory(Categories, pos) == FirstCategory(Categories[i..], pos)
    {
      var (name, keywords) := Categories[i];
      if exists k :: k in keywords && Contains(pos, k) {
        matched := name;
        return;
      }
      assert Categories[i..][1..] == Categories[i + 1..];
      i := i + 1;
    }
  }

  /** Which grammar keywords a category list holds, keyword by keyword. */
  lemma KeywordCategory(pos: string, g: string)
    requires g in GrammarTypes && Contains(pos, g)
    ensures exists i :: 0 <= i < |Categories| && AnyKeyword(pos, Categories[i].1)
  {
    if g in ["接頭", "接尾", "造"] {
      assert AnyKeyword(pos, Categories[0].1);
    } else if g in ["接", "接助"] {
      assert AnyKeyword(pos, Categories[1].1);
    } else if g in ["助詞", "副助", "終助"] {
      assert AnyKeyword(pos, Categories[2].1);
    } else if g in ["連語", "成句"] {
      assert AnyKeyword(pos, Categories[3].1);
    } else if g in ["助動詞", "補動"] {
      assert AnyKeyword(pos, Categories[4].1);
    } else {
      assert g == "形動トタル";
      assert AnyKeyword(pos, Categories[5].1);
    }
  }

  /** Every category keyword occurring in a tag makes it a grammar tag (順接 through 接). */
  lemma CategoryKeywordIsGrammar(pos: string, i: nat)
    requires i < |Categories| && AnyKeyword(pos, Categories[i].1)
    ensures IsGrammar(Some(pos))
  {
    var k :| k in Categories[i].1 && Contains(pos, k);
    if k == "順接" {
      ContainsMiddle("順", "接", "");
      assert "順" + "接" + "" == "順接";
      ContainsTransitive(pos, "順接", "接");
      assert "接" in GrammarTypes;
    } else {
      assert k in GrammarTypes;
    }
  }

  /** A grammar tag never lands in `Other`, and a tag outside `Other` is a grammar tag. */
  lemma GrammarIffCategorized(pos: string)
    ensures IsGrammar(Some(pos)) <==> Categorize(pos) != Other
  {
    FirstCategoryFinds(Categories, pos);
    if IsGrammar(Some(pos)) {
      var g :| g in GrammarTypes && Contains(pos, g);
      KeywordCategory(pos, g);
    }
    if Categorize(pos) != Other {
      var i :| 0 <= i < |Categories| && AnyKeyword(pos, Categories[i].1);
      CategoryKeywordIsGrammar(pos, i);
    }
  }

  /** Any tag containing 接 is grammar; a prefix tag 接頭… is bucketed before Conjunction. */
  lemma ConnectiveCases(pos: string)
    ensures Contains(pos, "接") ==> IsGrammar(Some(pos))
    ensures Contains(pos, "接頭") ==> Categorize(pos) == PrefixSuffix
    ensures Contains(pos, "接") && !AnyKeyword(pos, ["接頭", "接尾", "造"]) ==> Categorize(pos) == Conjunction
  {
    assert "接" in GrammarTypes;
    assert Categories[0].1 == ["接頭", "接尾", "造"];
    assert "接" in Categories[1].1;
    if Contains(pos, "接頭") {
      assert "接頭" in Categories[0].1;
    }
  }

  /** The empty tag is not grammar, so the `pos and` guard adds nothing to `is_grammar`. */
  lemma EmptyTagNotGrammar()
    ensures !IsGrammar(Some(""))
    ensures !IsGrammar(None)
  {
  }

  // ------------------------------------------------------------- counters

  /** A row of `words`: word and (possibly NULL) part_of_speech. */
  datatype Row = Row(word: string, pos: Option<string>)

  /** `if pos and is_grammar(pos)` */
  predicate GrammarRow(r: Row) {
    r.pos.Some? && r.pos.value != "" && IsGrammar(r.pos)
  }

  /** `f"{word} ({pos})"`, with a NULL tag printed as `None`. */
  function Example(r: Row): string {
    r.word + " (" + (if r.pos.Some? then r.pos.value else "None") + ")"
  }

  function GrammarCount(rows: seq<Row>): (n: nat)
    ensures n <= |rows|
    decreases |rows|
  {
    if |rows| == 0 then 0
    else GrammarCount(rows[..|rows| - 1]) + (if GrammarRow(rows[|rows| - 1]) then 1 else 0)
  }

  /** How many grammar rows fall in a category. */
  function CategoryCount(rows: seq<Row>, c: Category): nat
    decreases |rows|
  {
    if |rows| == 0 then 0
    else
      var r := rows[|rows| - 1];
      CategoryCount(rows[..|rows| - 1], c) + (if GrammarRow(r) && Categorize(r.pos.value) == c then 1 else 0)
  }

  /** How many grammar rows carry exactly this tag. */
  function TagCount(rows: seq<Row>, tag: string): nat
    decreases |rows|
  {
    if |rows| == 0 then 0
    else
      var r := rows[|rows| - 1];
      TagCount(rows[..|rows| - 1], tag) + (if GrammarRow(r) && r.pos.value == tag then 1 else 0)
  }

  /** The examples of every row on one side of the split, in order. */
  function Examples(rows: seq<Row>, grammar: bool): seq<string>
    decreases |rows|
  {
    if |rows| == 0 then []
    else
      var r := rows[|rows| - 1];
      Examples(rows[..|rows| - 1], grammar) + (if GrammarRow(r) == grammar then [Example(r)] else [])
  }

  function Take(s: seq<string>, n: nat): seq<string> {
    if |s| <= n then s else s[..n]
  }

  const MaxExamples: nat := 10

  datatype Stats = Stats(
    total: nat, grammarCount: nat, wordCount: nat,
    grammarExamples: seq<string>, wordExamples: seq<string>,
    categoryCounts: map<Category, nat>, breakdown: map<string, nat>)

  /** `defaultdict`/`Counter` increment. */
  function Bump<K>(m: map<K, nat>, k: K): map<K, nat> {
    m[k := (if k in m then m[k] else 0) + 1]
  }

  /** The counting loop of `analyze_grammar`. */
  method Analyze(rows: seq<Row>) returns (s: Stats)
    ensures s.total == |rows|
    ensures s.grammarCount == GrammarCount(rows) && s.wordCount == |rows| - GrammarCount(rows)
    ensures s.grammarExamples == Take(Examples(rows, true), MaxExamples)
    ensures s.wordExamples == Take(Examples(rows, false), MaxExamples)
    ensures forall c :: c in s.categoryCounts <==> CategoryCount(rows, c) > 0
    ensures forall c :: c in s.categoryCounts ==> s.categoryCounts[c] == CategoryCount(rows, c)
    ensures forall t :: t in s.breakdown <==> TagCount(rows, t) > 0
    ensures forall t :: t in s.breakdown ==> s.breakdown[t] == TagCount(rows, t)
  {
    var grammarCount := 0;
    var wordCount := 0;
    var grammarExamples: seq<string> := [];
    var wordExamples: seq<string> := [];
    var categoryCounts: map<Category, nat> := map[];
    var breakdown: map<string, nat> := map[];
    for i := 0 to |rows|
      invariant grammarCount == GrammarCount(rows[..i]) && wordCount == i - GrammarCount(rows[..i])
      invariant grammarExamples == Take(Examples(rows[..i], true), MaxExamples)
      invariant wordExamples == Take(Examples(rows[..i], false), MaxExamples)
      invariant forall c :: c in categoryCounts <==> CategoryCount(rows[..i], c) > 0
      invariant forall c :: c in categoryCounts ==> categoryCounts[c] == CategoryCount(rows[..i], c)
      invariant forall t :: t in breakdown <==> TagCount(rows[..i], t) > 0
      invariant forall t :: t in breakdown ==> breakdown[t] == TagCount(rows[..i], t)
    {
      var r := rows[i];
      assert rows[..i + 1][..i] == rows[..i];
      assert rows[..i + 1][i] == r;
      if r.pos.Some? && r.pos.value != "" && IsGrammar(r.pos) {
        grammarCount := grammarCount + 1;
        if |grammarExamples| < MaxExamples {
          grammarExamples := grammarExamples + [Example(r)];
        }
        var matched := MatchCategory(r.pos.value);
        categoryCounts := Bump(categoryCounts, matched);
        breakdown := Bump(breakdown, r.pos.value);
      } else {
        wordCount := wordCount + 1;
        if |wordExamples| < MaxExamples {
          wordExamples := wordExamples + [Example(r)];
        }
      }
    }
    assert rows[..|rows|] == rows;
    s := Stats(|rows|, grammarCount, wordCount, grammarExamples, wordExamples, categoryCounts, breakdown);
  }

  /** Every category, `Other` included. */
  const AllCategories: seq<Category> :=
    [PrefixSuffix, Conjunction, Particle, CompoundPhrase, AuxiliaryVerb, AdjectivalVerb, Other]

  function SumCounts(rows: seq<Row>, cats: seq<Category>): nat
    decreases |cats|
  {
    if |cats| == 0 then 0 else CategoryCount(rows, cats[0]) + SumCounts(rows, cats[1..])
  }

  /** Adding one row to the sum over a list of distinct categories. */
  lemma {:induction false} SumCountsSnoc(rows: seq<Row>, r: Row, cats: seq<Category>)
    requires forall i, j :: 0 <= i < j < |cats| ==> cats[i] != cats[j]
    ensures SumCounts(rows + [r], cats) == SumCounts(rows, cats) +
      (if GrammarRow(r) && Categorize(r.pos.value) in cats then 1 else 0)
    decreases |cats|
  {
    assert (rows + [r])[..|rows + [r]| - 1] == rows;
    if |cats| > 0 {
      SumCountsSnoc(rows, r, cats[1..]);
      if GrammarRow(r) && Categorize(r.pos.value) == cats[0] {
        assert cats[0] !in cats[1..];
      }
    }
  }

  lemma AllCategoriesListed()
    ensures forall i, j :: 0 <= i < j < |AllCategories| ==> AllCategories[i] != AllCategories[j]
    ensures forall c: Category :: c in AllCategories
  {
    forall c: Category
      ensures c in AllCategories
    {
      match c {
        case PrefixSuffix => assert AllCategories[0] == c;
        case Conjunction => assert AllCategories[1] == c;
        case Particle => assert AllCategories[2] == c;
        case CompoundPhrase => assert AllCategories[3] == c;
        case AuxiliaryVerb => assert AllCategories[4] == c;
        case AdjectivalVerb => assert AllCategories[5] == c;
        case Other => assert AllCategories[6] == c;
      }
    }
  }

  /** The category counts add up to the number of grammar rows. */
  lemma {:induction false} CategoryCountsSum(rows: seq<Row>)
    ensures SumCounts(rows, AllCategories) == GrammarCount(rows)
    decreases |rows|
  {
    if |rows| > 0 {
      var n := |rows| - 1;
      CategoryCountsSum(rows[..n]);
      assert rows == rows[..n] + [rows[n]];
      AllCategoriesListed();
      SumCountsSnoc(rows[..n], rows[n], AllCategories);
      if GrammarRow(rows[n]) {
        assert Categorize(rows[n].pos.value) in AllCategories;
      }
    } else {
      SumCountsZero(rows, AllCategories);
    }
  }

  lemma {:induction false} SumCountsZero(rows: seq<Row>, cats: seq<Category>)
    requires |rows| == 0
    ensures SumCounts(rows, cats) == 0
    decreases |cats|
  {
    if |cats| > 0 {
      SumCountsZero(rows, cats[1..]);
    }
  }

  /** No grammar row is counted as `Other`. */
  lemma {:induction false} NoOtherCategory(rows: seq<Row>)
    ensures CategoryCount(rows, Other) == 0
    decreases |rows|
  {
    if |rows| > 0 {
      var r := rows[|rows| - 1];
      NoOtherCategory(rows[..|rows| - 1]);
      if GrammarRow(r) {
        GrammarIffCategorized(r.pos.value);
      }
    }
  }

  /** There are at most ten examples of each kind, and fewer only when there are fewer rows of that kind. */
  lemma ExampleBounds(rows: seq<Row>, grammar: bool)
    ensures |Take(Examples(rows, grammar), MaxExamples)| <= MaxExamples
    ensures |Take(Examples(rows, grammar), MaxExamples)| == if |Examples(rows, grammar)| < MaxExamples then |Examples(rows, grammar)| else MaxExamples
    ensures Take(Examples(rows, grammar), MaxExamples) <= Examples(rows, grammar)
  {
  }

  /** The grammar examples number as many as the grammar rows, the word examples the rest. */
  lemma {:induction false} ExamplesCount(rows: seq<Row>)
    ensures |Examples(rows, true)| == GrammarCount(rows)
    ensures |Examples(rows, false)| == |rows| - GrammarCount(rows)
    decreases |rows|
  {
    if |rows| > 0 {
      ExamplesCount(rows[..|rows| - 1]);
    }
  }
}
