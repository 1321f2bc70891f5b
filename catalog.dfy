/**
 * The fixed catalog of the 17 grammatical categories a conjugated form can
 * belong to (`init_types` in scripts/generate_conjugations.py), and the
 * idempotent insert-if-absent of that catalog into the `conjugation_types`
 * table, modelled as a map from code to record.
 */
module Catalog {
  import opened Wrappers

  /** One code per paradigm slot. */
  datatype Code =
    | PolitePresent | PolitePast | PoliteNegative | PolitePastNegative
    | PlainPresent | PlainPast | PlainNegative | PlainPastNegative
    | TeForm
    | Potential | Passive | Causative | CausativePassive
    | Imperative | Volitional
    | ConditionalBa | ConditionalTara

  /** The code as it is stored in the database. */
  function CodeName(c: Code): string {
    match c
    case PolitePresent => "polite_present"
    case PolitePast => "polite_past"
    case PoliteNegative => "polite_negative"
    case PolitePastNegative => "polite_past_negative"
    case PlainPresent => "plain_present"
    case PlainPast => "plain_past"
    case PlainNegative => "plain_negative"
    case PlainPastNegative => "plain_past_negative"
    case TeForm => "te_form"
    case Potential => "potential"
    case Passive => "passive"
    case Causative => "causative"
    case CausativePassive => "causative_passive"
    case Imperative => "imperative"
    case Volitional => "volitional"
    case ConditionalBa => "conditional_ba"
    case ConditionalTara => "conditional_tara"
  }

  /** Reads a stored code back; `None` for a string that names no category. */
  function CodeOf(s: string): Option<Code> {
    if s == "polite_present" then Some(PolitePresent)
    else if s == "polite_past" then Some(PolitePast)
    else if s == "polite_negative" then Some(PoliteNegative)
    else if s == "polite_past_negative" then Some(PolitePastNegative)
    else if s == "plain_present" then Some(PlainPresent)
    else if s == "plain_past" then Some(PlainPast)
    else if s == "plain_negative" then Some(PlainNegative)
    else if s == "plain_past_negative" then Some(PlainPastNegative)
    else if s == "te_form" then Some(TeForm)
    else if s == "potential" then Some(Potential)
    else if s == "passive" then Some(Passive)
    else if s == "causative" then Some(Causative)
    else if s == "causative_passive" then Some(CausativePassive)
    else if s == "imperative" then Some(Imperative)
    else if s == "volitional" then Some(Volitional)
    else if s == "conditional_ba" then Some(ConditionalBa)
    else if s == "conditional_tara" then Some(ConditionalTara)
    else None
  }

  /** Reading a stored code gives back the category it was written for. */
  lemma CodeNameRoundTrip(c: Code)
    ensures CodeOf(CodeName(c)) == Some(c)
  {
  }

  /** A string that reads as a code is exactly that code's stored name. */
  lemma CodeOfRoundTrip(s: string)
    ensures CodeOf(s).Some? ==> CodeName(CodeOf(s).value) == s
  {
  }

  /** Distinct categories are stored under distinct codes. */
  lemma CodeNameInjective(c: Code, d: Code)
    ensures CodeName(c) == CodeName(d) ==> c == d
  {
    CodeNameRoundTrip(c);
    CodeNameRoundTrip(d);
  }

  const AllCodes: set<Code> := {
    PolitePresent, PolitePast, PoliteNegative, PolitePastNegative,
    PlainPresent, PlainPast, PlainNegative, PlainPastNegative,
    TeForm, Potential, Passive, Causative, CausativePassive,
    Imperative, Volitional, ConditionalBa, ConditionalTara
  }

  /** The categories only verbs have. */
  const VerbOnlyCodes: set<Code> := {
    Potential, Passive, Causative, CausativePassive, Imperative, Volitional
  }

  /** The categories an adjective paradigm fills. */
  const AdjectiveCodes: set<Code> := AllCodes - VerbOnlyCodes

  /** Every category is in the catalog's code set. */
  lemma AllCodesComplete(c: Code)
    ensures c in AllCodes
  {
  }

  /** A list without repetitions has as many distinct elements as entries. */
  lemma {:induction false} DistinctCard<T>(s: seq<T>)
    requires forall i, j :: 0 <= i < j < |s| ==> s[i] != s[j]
    ensures |set x | x in s| == |s|
  {
    if |s| > 0 {
      DistinctCard(s[1..]);
      assert (set x | x in s) == {s[0]} + (set x | x in s[1..]);
      assert s[0] !in s[1..];
    }
  }

  /** The catalog has 17 codes. */
  lemma AllCodesSize()
    ensures |AllCodes| == 17
  {
    CatalogWellFormed();
    var order := CatalogOrder();
    DistinctCard(order);
    forall c: Code ensures c in AllCodes <==> c in order {
      AllCodesComplete(c);
    }
    assert AllCodes == set x | x in order;
  }

  /** Six codes are verb-only. */
  lemma VerbOnlySize()
    ensures |VerbOnlyCodes| == 6
  {
    var verbOnly := [Potential, Passive, Causative, CausativePassive, Imperative, Volitional];
    DistinctCard(verbOnly);
    assert VerbOnlyCodes == set x | x in verbOnly;
  }

  /** Adjectives use the remaining 11. */
  lemma AdjectiveSize()
    ensures |AdjectiveCodes| == 11
  {
    AllCodesSize();
    VerbOnlySize();
    assert VerbOnlyCodes - AllCodes == {};
    assert AllCodes * VerbOnlyCodes == VerbOnlyCodes;
    assert AllCodes + VerbOnlyCodes == AllCodes;
  }

  /** The adjective categories, listed. */
  lemma AdjectiveCodesListed()
    ensures AdjectiveCodes == {
      PolitePresent, PolitePast, PoliteNegative, PolitePastNegative,
      PlainPresent, PlainPast, PlainNegative, PlainPastNegative,
      TeForm, ConditionalBa, ConditionalTara
    }
  {
    forall c: Code ensures c in AdjectiveCodes <==> c in {
      PolitePresent, PolitePast, PoliteNegative, PolitePastNegative,
      PlainPresent, PlainPast, PlainNegative, PlainPastNegative,
      TeForm, ConditionalBa, ConditionalTara
    } {
      AllCodesComplete(c);
    }
  }

  /** One row of `conjugation_types`. */
  datatype TypeRecord = TypeRecord(
    code: Code, nameJa: string, nameCn: string, sortOrder: int, description: string)

  /** The catalog, in the order the script inserts it. */
  const Types: seq<TypeRecord> := [
    TypeRecord(PolitePresent, "ます形", "敬体-非过去", 10, "Polite non-past form"),
    TypeRecord(PolitePast, "ました形", "敬体-过去", 20, "Polite past form"),
    TypeRecord(PoliteNegative, "ません形", "敬体-否定", 30, "Polite negative form"),
    TypeRecord(PolitePastNegative, "ませんでした形", "敬体-过去否定", 40, "Polite past negative form"),
    TypeRecord(PlainPresent, "辞書形", "简体-非过去", 50, "Plain non-past form (Dictionary form)"),
    TypeRecord(PlainPast, "た形", "简体-过去", 60, "Plain past form (Ta-form)"),
    TypeRecord(PlainNegative, "ない形", "简体-否定", 70, "Plain negative form (Nai-form)"),
    TypeRecord(PlainPastNegative, "なかった形", "简体-过去否定", 80, "Plain past negative form"),
    TypeRecord(TeForm, "て形", "连接形 (て形)", 90, "Te-form, used for connecting sentences"),
    TypeRecord(Potential, "可能形", "可能态", 100, "Potential form (can do)"),
    TypeRecord(Passive, "受身形", "被动态", 110, "Passive form"),
    TypeRecord(Causative, "使役形", "使役态", 120, "Causative form (make/let someone do)"),
    TypeRecord(CausativePassive, "使役受身形", "使役被动", 130, "Causative-passive form"),
    TypeRecord(Imperative, "命令形", "命令形", 140, "Imperative form"),
    TypeRecord(Volitional, "意向形", "意向形", 150, "Volitional form (let's do)"),
    TypeRecord(ConditionalBa, "ば形", "假定形 (ば)", 160, "Conditional form (if)"),
    TypeRecord(ConditionalTara, "たら形", "假定形 (たら)", 170, "Conditional form (when/if)")
  ]

  /** The codes in catalog order; also the order in which every generator fills its forms. */
  function CatalogOrder(): (order: seq<Code>)
    ensures |order| == |Types|
    ensures forall i :: 0 <= i < |order| ==> order[i] == Types[i].code
  {
    seq(|Types|, i requires 0 <= i < |Types| => Types[i].code)
  }

  /** The catalog lists 17 distinct codes, ranked 10, 20, ..., 170, and covers every category. */
  lemma CatalogWellFormed()
    ensures |Types| == 17
    ensures forall i, j :: 0 <= i < j < |Types| ==> Types[i].code != Types[j].code
    ensures forall i :: 0 <= i < |Types| ==> Types[i].sortOrder == 10 * (i + 1)
    ensures forall i, j :: 0 <= i < j < |Types| ==> Types[i].sortOrder < Types[j].sortOrder
    ensures forall c: Code :: c in CatalogOrder()
  {
    var order := CatalogOrder();
    forall c: Code ensures c in order {
      match c
      case PolitePresent => assert order[0] == c;
      case PolitePast => assert order[1] == c;
      case PoliteNegative => assert order[2] == c;
      case PolitePastNegative => assert order[3] == c;
      case PlainPresent => assert order[4] == c;
      case PlainPast => assert order[5] == c;
      case PlainNegative => assert order[6] == c;
      case PlainPastNegative => assert order[7] == c;
      case TeForm => assert order[8] == c;
      case Potential => assert order[9] == c;
      case Passive => assert order[10] == c;
      case Causative => assert order[11] == c;
      case CausativePassive => assert order[12] == c;
      case Imperative => assert order[13] == c;
      case Volitional => assert order[14] == c;
      case ConditionalBa => assert order[15] == c;
      case ConditionalTara => assert order[16] == c;
    }
  }

  /**
   * The `conjugation_types` table: one record per stored code. The table is
   * keyed by `Code`; since `CodeName` is injective this is the same as keying
   * it by the stored string.
   */
  type TypeTable = map<Code, TypeRecord>

  /** The stored codes of a list of records. */
  function Names(records: seq<TypeRecord>): set<Code> {
    set i | 0 <= i < |records| :: records[i].code
  }

  /** No code is listed twice. */
  predicate DistinctCodes(records: seq<TypeRecord>) {
    forall i, j :: 0 <= i < j < |records| ==> records[i].code != records[j].code
  }

  /**
   * The table after `INSERT OR IGNORE` of each record in turn: a record whose
   * code is already stored is dropped, any other is added.
   */
  function InsertMissing(table: TypeTable, records: seq<TypeRecord>): TypeTable
    decreases |records|
  {
    if |records| == 0 then table
    else
      var before := InsertMissing(table, records[..|records| - 1]);
      var last := records[|records| - 1];
      if last.code in before then before else before[last.code := last]
  }

  /** The names of a list are those of its front plus that of its last record. */
  lemma NamesSnoc(records: seq<TypeRecord>)
    requires |records| > 0
    ensures Names(records) == Names(records[..|records| - 1]) + {records[|records| - 1].code}
  {
    var n := |records| - 1;
    var front := records[..n];
    forall k | k in Names(records) ensures k in Names(front) + {records[n].code} {
      var i :| 0 <= i < |records| && records[i].code == k;
      if i < n {
        assert front[i] == records[i];
      }
    }
    forall k | k in Names(front) ensures k in Names(records) {
      var i :| 0 <= i < n && front[i].code == k;
      assert front[i] == records[i];
    }
  }

  /**
   * Inserting records with distinct codes yields exactly the old records plus
   * one record per missing code.
   */
  lemma {:induction false} InsertMissingContents(table: TypeTable, records: seq<TypeRecord>)
    requires DistinctCodes(records)
    ensures InsertMissing(table, records).Keys == table.Keys + Names(records)
    ensures forall k :: k in table ==> InsertMissing(table, records)[k] == table[k]
    ensures forall i :: 0 <= i < |records| && records[i].code !in table ==>
      InsertMissing(table, records)[records[i].code] == records[i]
    decreases |records|
  {
    if |records| > 0 {
      var n := |records| - 1;
      var front := records[..n];
      assert DistinctCodes(front) by {
        assert forall i :: 0 <= i < n ==> front[i] == records[i];
      }
      InsertMissingContents(table, front);
      NamesSnoc(records);
      var name := records[n].code;
      var before := InsertMissing(table, front);
      forall i | 0 <= i < |records| && records[i].code !in table
        ensures InsertMissing(table, records)[records[i].code] == records[i]
      {
        if i < n {
          assert front[i] == records[i];
          assert records[i].code in before;
        }
      }
    }
  }

  /** A table that already holds every code is left as it is. */
  lemma {:induction false} InsertMissingNoop(table: TypeTable, records: seq<TypeRecord>)
    requires Names(records) <= table.Keys
    ensures InsertMissing(table, records) == table
    decreases |records|
  {
    if |records| > 0 {
      var n := |records| - 1;
      assert Names(records[..n]) <= Names(records) by {
        forall k | k in Names(records[..n]) ensures k in Names(records) {
          var i :| 0 <= i < n && records[..n][i].code == k;
          assert records[i] == records[..n][i];
        }
      }
      InsertMissingNoop(table, records[..n]);
      assert records[n].code in Names(records);
    }
  }

  /** Initialising a second time changes nothing. */
  lemma InsertMissingIdempotent(table: TypeTable, records: seq<TypeRecord>)
    requires DistinctCodes(records)
    ensures InsertMissing(InsertMissing(table, records), records) == InsertMissing(table, records)
  {
    InsertMissingContents(table, records);
    InsertMissingNoop(InsertMissing(table, records), records);
  }

  /**
   * `init_types`: inserts every catalog record whose code is not yet in the
   * table and leaves every existing record alone.
   */
  method InitTypes(table: TypeTable) returns (result: TypeTable)
    ensures result == InsertMissing(table, Types)
    ensures result.Keys == table.Keys + AllCodes
    ensures forall k :: k in table ==> result[k] == table[k]
    ensures forall i :: 0 <= i < |Types| && Types[i].code !in table ==> result[Types[i].code] == Types[i]
  {
    CatalogWellFormed();
    CatalogNamesAll();
    result := InsertEach(table, Types);
  }

  /** The catalog names every category. */
  lemma CatalogNamesAll()
    ensures Names(Types) == AllCodes
  {
    CatalogWellFormed();
    forall c: Code ensures c in Names(Types) && c in AllCodes {
      AllCodesComplete(c);
      var order := CatalogOrder();
      assert c in order;
      var i :| 0 <= i < |order| && order[i] == c;
      assert Types[i].code == c;
    }
  }

  /** The insertion loop of `init_types`, over any list of records with distinct codes. */
  method InsertEach(table: TypeTable, records: seq<TypeRecord>) returns (result: TypeTable)
    requires DistinctCodes(records)
    ensures result == InsertMissing(table, records)
    ensures result.Keys == table.Keys + Names(records)
    ensures forall k :: k in table ==> result[k] == table[k]
    ensures forall i :: 0 <= i < |records| && records[i].code !in table ==> result[records[i].code] == records[i]
  {
    result := table;
    for n := 0 to |records|
      invariant result == InsertMissing(table, records[..n])
    {
      assert records[..n + 1][..n] == records[..n];
      var code := records[n].code;
      if code !in result {
        result := result[code := records[n]];
      }
    }
    assert records[..|records|] == records;
    InsertMissingContents(table, records);
  }
}
