/**
 * The batch loop of `main` in scripts/generate_conjugations.py: every
 * candidate word is conjugated, and each form is upserted into
 * `word_conjugations` under the key (word id, type id). The table is an
 * abstract map; an upsert is a map update, so the last write to a key wins.
 * The loop is specified in two steps: what `get_conjugations` returns for
 * each entry (its outcome), and which upserts those outcomes cause.
 */
module Batch {
  import opened Wrappers
  import opened Catalog
  import opened Classifier
  import opened Paradigms

  /** One row of the candidate query: (id, word, part_of_speech). */
  datatype Entry = Entry(id: int, word: string, pos: string)

  /** (word_id, type_id) */
  type Key = (int, int)

  /** `word_conjugations`, keyed by its primary key. */
  type Store = map<Key, string>

  /** One `INSERT OR REPLACE`. */
  datatype Write = Write(key: Key, text: string)

  /**
   * `code -> id` as read back from `conjugation_types`; the code strings are
   * the catalog's own, so they are held here as `Code`s (see `CodeOf`).
   */
  type TypeMap = map<Code, int>

  /** A word id with what `get_conjugations` returned for that word. */
  datatype Outcome = Outcome(id: int, conjugations: Option<Forms>)

  /** Every entry of the batch can be conjugated without raising. */
  predicate AllConjugable(entries: seq<Entry>) {
    forall i :: 0 <= i < |entries| ==> Conjugable(entries[i].word, entries[i].pos)
  }

  /** `get_conjugations(word, pos)` for one entry. */
  function OutcomeOf(e: Entry): Outcome
    requires Conjugable(e.word, e.pos)
  {
    Outcome(e.id, GetConjugations(e.word, e.pos))
  }

  /** The outcome of each entry, in order. */
  function Outcomes(entries: seq<Entry>): (outs: seq<Outcome>)
    requires AllConjugable(entries)
    ensures |outs| == |entries|
    ensures forall i :: 0 <= i < |entries| ==> outs[i] == OutcomeOf(entries[i])
  {
    seq(|entries|, i requires 0 <= i < |entries| => OutcomeOf(entries[i]))
  }

  /** Performing a sequence of upserts in order. */
  function Apply(store: Store, writes: seq<Write>): Store
    decreases |writes|
  {
    if |writes| == 0 then store
    else
      var last := writes[|writes| - 1];
      Apply(store, writes[..|writes| - 1])[last.key := last.text]
  }

  /**
   * The upserts for one conjugated word, in the dict's order: categories
   * without a type id are passed over.
   */
  function CodeWrites(id: int, forms: Forms, typeMap: TypeMap, codes: seq<Code>): seq<Write>
    decreases |codes|
  {
    if |codes| == 0 then []
    else
      var rest := CodeWrites(id, forms, typeMap, codes[..|codes| - 1]);
      var c := codes[|codes| - 1];
      if c in forms && c in typeMap then rest + [Write((id, typeMap[c]), forms[c])]
      else rest
  }

  /** `if not conjugations: skipped += 1; continue` */
  predicate Skipped(o: Outcome) {
    o.conjugations.None? || o.conjugations.value == map[]
  }

  /** The upserts one outcome causes. */
  function OutcomeWrites(o: Outcome, typeMap: TypeMap): seq<Write> {
    if Skipped(o) then [] else CodeWrites(o.id, o.conjugations.value, typeMap, DictOrder)
  }

  /** The upserts a run of outcomes causes, one after the other. */
  function BatchWrites(outs: seq<Outcome>, typeMap: TypeMap): seq<Write>
    decreases |outs|
  {
    if |outs| == 0 then []
    else BatchWrites(outs[..|outs| - 1], typeMap) + OutcomeWrites(outs[|outs| - 1], typeMap)
  }

  /** How many outcomes are skipped. */
  function SkippedCount(outs: seq<Outcome>): (n: nat)
    ensures n <= |outs|
    decreases |outs|
  {
    if |outs| == 0 then 0
    else SkippedCount(outs[..|outs| - 1]) + (if Skipped(outs[|outs| - 1]) then 1 else 0)
  }

  /** The loop of `main`: returns the final table and the two counters. */
  method GenerateConjugations(entries: seq<Entry>, typeMap: TypeMap, store: Store)
    returns (result: Store, count: nat, skipped: nat)
    requires AllConjugable(entries)
    ensures result == Apply(store, BatchWrites(Outcomes(entries), typeMap))
    ensures skipped == SkippedCount(Outcomes(entries))
    ensures count + skipped == |entries|
  {
    ghost var outs := Outcomes(entries);
    result := store;
    count := 0;
    skipped := 0;
    for i := 0 to |entries|
      invariant result == Apply(store, BatchWrites(outs[..i], typeMap))
      invariant skipped == SkippedCount(outs[..i])
      invariant count + skipped == i
    {
      BatchSnoc(outs, i, typeMap);
      ApplyConcat(store, BatchWrites(outs[..i], typeMap), OutcomeWrites(outs[i], typeMap));
      var wasSkipped;
      result, wasSkipped := ProcessEntry(result, entries[i], typeMap);
      if wasSkipped {
        skipped := skipped + 1;
      } else {
        count := count + 1;
      }
    }
    assert outs[..|entries|] == outs;
  }

  /** One turn of the loop of `main`: conjugate the entry and upsert its forms, or skip it. */
  method ProcessEntry(store: Store, e: Entry, typeMap: TypeMap) returns (result: Store, wasSkipped: bool)
    requires Conjugable(e.word, e.pos)
    ensures wasSkipped == Skipped(OutcomeOf(e))
    ensures result == Apply(store, OutcomeWrites(OutcomeOf(e), typeMap))
  {
    var conjugations := GetConjugations(e.word, e.pos);
    if conjugations.None? || conjugations.value == map[] {
      return store, true;
    }
    result := UpsertForms(store, e.id, conjugations.value, typeMap, DictOrder);
    wasSkipped := false;
  }

  /** The inner loop of `main`: upsert one word's forms, category by category. */
  method UpsertForms(store: Store, id: int, forms: Forms, typeMap: TypeMap, codes: seq<Code>)
    returns (result: Store)
    ensures result == Apply(store, CodeWrites(id, forms, typeMap, codes))
  {
    result := store;
    for j := 0 to |codes|
      invariant result == Apply(store, CodeWrites(id, forms, typeMap, codes[..j]))
    {
      assert codes[..j + 1][..j] == codes[..j];
      var c := codes[j];
      if c in forms && c in typeMap {
        result := result[(id, typeMap[c]) := forms[c]];
      }
    }
    assert codes[..|codes|] == codes;
  }

  // ------------------------------------------------------------- upserts

  /** One more outcome adds its upserts at the end, and one to the skip count if skipped. */
  lemma BatchSnoc(outs: seq<Outcome>, i: nat, typeMap: TypeMap)
    requires i < |outs|
    ensures BatchWrites(outs[..i + 1], typeMap) == BatchWrites(outs[..i], typeMap) + OutcomeWrites(outs[i], typeMap)
    ensures SkippedCount(outs[..i + 1]) == SkippedCount(outs[..i]) + (if Skipped(outs[i]) then 1 else 0)
  {
    assert outs[..i + 1][..i] == outs[..i];
  }


  lemma {:induction false} ApplyConcat(store: Store, a: seq<Write>, b: seq<Write>)
    ensures Apply(store, a + b) == Apply(Apply(store, a), b)
    decreases |b|
  {
    if |b| == 0 {
      assert a + b == a;
    } else {
      assert (a + b)[..|a + b| - 1] == a + b[..|b| - 1];
      ApplyConcat(store, a, b[..|b| - 1]);
    }
  }

  /** The writes override the old table and leave every other key as it was. */
  lemma {:induction false} ApplyIsUnion(store: Store, writes: seq<Write>)
    ensures Apply(store, writes) == store + Apply(map[], writes)
    decreases |writes|
  {
    if |writes| > 0 {
      ApplyIsUnion(store, writes[..|writes| - 1]);
    }
  }

  /** Running the same upserts a second time changes nothing: re-running the script is harmless. */
  lemma ApplyIdempotent(store: Store, writes: seq<Write>)
    ensures Apply(Apply(store, writes), writes) == Apply(store, writes)
  {
    ApplyIsUnion(store, writes);
    ApplyIsUnion(Apply(store, writes), writes);
  }

  /** A key the writes do not touch keeps its old value (or stays absent). */
  lemma {:induction false} ApplyUntouched(store: Store, writes: seq<Write>, k: Key)
    requires forall i :: 0 <= i < |writes| ==> writes[i].key != k
    ensures (k in Apply(store, writes)) == (k in store)
    ensures k in store ==> Apply(store, writes)[k] == store[k]
    decreases |writes|
  {
    if |writes| > 0 {
      ApplyUntouched(store, writes[..|writes| - 1], k);
    }
  }

  /** The last write to a key is the value the key ends up holding. */
  lemma ApplyLastWriteWins(store: Store, writes: seq<Write>, i: nat)
    requires i < |writes|
    requires forall j :: i < j < |writes| ==> writes[j].key != writes[i].key
    ensures writes[i].key in Apply(store, writes)
    ensures Apply(store, writes)[writes[i].key] == writes[i].text
  {
    assert writes == writes[..i + 1] + writes[i + 1..];
    ApplyConcat(store, writes[..i + 1], writes[i + 1..]);
    assert writes[..i + 1][..i] == writes[..i];
    ApplyUntouched(Apply(store, writes[..i + 1]), writes[i + 1..], writes[i].key);
  }

  /** When every write to a key carries the same text, the key ends up with that text. */
  lemma {:induction false} ApplyAgreeing(store: Store, writes: seq<Write>, k: Key, v: string, i: nat)
    requires i < |writes| && writes[i].key == k
    requires forall j :: 0 <= j < |writes| && writes[j].key == k ==> writes[j].text == v
    ensures k in Apply(store, writes) && Apply(store, writes)[k] == v
    decreases |writes|
  {
    var n := |writes| - 1;
    if writes[n].key != k {
      ApplyAgreeing(store, writes[..n], k, v, i);
    }
  }

  // ------------------------------------------------ what one word writes

  /** Type ids are the primary keys of distinct catalog rows. */
  predicate TypeIdsDistinct(typeMap: TypeMap) {
    forall a, b :: a in typeMap && b in typeMap && a != b ==> typeMap[a] != typeMap[b]
  }

  /** Every upsert for a word stores one of its forms under the type id of that form's category. */
  lemma {:induction false} CodeWritesSound(id: int, forms: Forms, typeMap: TypeMap, codes: seq<Code>, i: nat)
    returns (c: Code)
    requires i < |CodeWrites(id, forms, typeMap, codes)|
    ensures c in codes && c in forms && c in typeMap
    ensures CodeWrites(id, forms, typeMap, codes)[i] == Write((id, typeMap[c]), forms[c])
    decreases |codes|
  {
    var n := |codes| - 1;
    var rest := CodeWrites(id, forms, typeMap, codes[..n]);
    if i < |rest| {
      c := CodeWritesSound(id, forms, typeMap, codes[..n], i);
      assert c in codes;
    } else {
      c := codes[n];
    }
  }

  /** Every form whose category has a type id is upserted. */
  lemma {:induction false} CodeWritesComplete(id: int, forms: Forms, typeMap: TypeMap, codes: seq<Code>, c: Code)
    requires c in codes && c in forms && c in typeMap
    ensures Write((id, typeMap[c]), forms[c]) in CodeWrites(id, forms, typeMap, codes)
    decreases |codes|
  {
    var n := |codes| - 1;
    if codes[n] != c {
      assert c in codes[..n];
      CodeWritesComplete(id, forms, typeMap, codes[..n], c);
    }
  }

  /**
   * After one conjugated word is processed, each of its forms whose category
   * has a type id sits under (word id, type id).
   */
  lemma OutcomeStoresForms(store: Store, o: Outcome, typeMap: TypeMap, c: Code)
    requires TypeIdsDistinct(typeMap)
    requires o.conjugations.Some? && c in o.conjugations.value && c in typeMap
    ensures var k := (o.id, typeMap[c]);
      k in Apply(store, OutcomeWrites(o, typeMap)) &&
      Apply(store, OutcomeWrites(o, typeMap))[k] == o.conjugations.value[c]
  {
    var forms := o.conjugations.value;
    var writes := OutcomeWrites(o, typeMap);
    var k := (o.id, typeMap[c]);
    DictOrderComplete(c);
    CodeWritesComplete(o.id, forms, typeMap, DictOrder, c);
    var i :| 0 <= i < |writes| && writes[i] == Write(k, forms[c]);
    forall j | 0 <= j < |writes| && writes[j].key == k
      ensures writes[j].text == forms[c]
    {
      var d := CodeWritesSound(o.id, forms, typeMap, DictOrder, j);
    }
    ApplyAgreeing(store, writes, k, forms[c], i);
  }

  /** Every upsert for a word uses that word's id. */
  lemma OutcomeWritesKeyed(o: Outcome, typeMap: TypeMap, w: Write)
    requires w in OutcomeWrites(o, typeMap)
    ensures w.key.0 == o.id
  {
    var writes := OutcomeWrites(o, typeMap);
    var i :| 0 <= i < |writes| && writes[i] == w;
    var c := CodeWritesSound(o.id, o.conjugations.value, typeMap, DictOrder, i);
  }

  // ------------------------------------------------------- the whole batch

  /** An entry is skipped exactly when the classifier has no class for it. */
  lemma SkippedIffUnclassified(e: Entry)
    requires Conjugable(e.word, e.pos)
    ensures Skipped(OutcomeOf(e)) <==> GetVerbType(e.word, e.pos).None?
  {
  }

  /** No upserts for a word none of whose categories has a type id. */
  lemma {:induction false} CodeWritesNone(id: int, forms: Forms, typeMap: TypeMap, codes: seq<Code>)
    requires forall i :: 0 <= i < |codes| ==> codes[i] !in forms || codes[i] !in typeMap
    ensures CodeWrites(id, forms, typeMap, codes) == []
    decreases |codes|
  {
    if |codes| > 0 {
      CodeWritesNone(id, forms, typeMap, codes[..|codes| - 1]);
    }
  }

  /**
   * An outcome upserts nothing exactly when it is skipped or none of its
   * categories has a type id.
   */
  lemma SkippedWritesNothing(o: Outcome, typeMap: TypeMap)
    ensures Skipped(o) ==> OutcomeWrites(o, typeMap) == []
    ensures OutcomeWrites(o, typeMap) == [] <==> Skipped(o) || o.conjugations.value.Keys !! typeMap.Keys
  {
    if !Skipped(o) {
      var forms := o.conjugations.value;
      if forms.Keys * typeMap.Keys != {} {
        var c :| c in forms.Keys * typeMap.Keys;
        DictOrderComplete(c);
        CodeWritesComplete(o.id, forms, typeMap, DictOrder, c);
      } else {
        forall i | 0 <= i < |DictOrder|
          ensures DictOrder[i] !in forms || DictOrder[i] !in typeMap
        {
          assert DictOrder[i] !in forms.Keys * typeMap.Keys;
        }
        CodeWritesNone(o.id, forms, typeMap, DictOrder);
        forall c | c in forms.Keys
          ensures c !in typeMap.Keys
        {
          assert c !in forms.Keys * typeMap.Keys;
        }
      }
    }
  }

  /** Every upsert of the batch comes from one of its outcomes. */
  lemma {:induction false} BatchWriteOrigin(outs: seq<Outcome>, typeMap: TypeMap, w: Write) returns (j: nat)
    requires w in BatchWrites(outs, typeMap)
    ensures j < |outs| && w in OutcomeWrites(outs[j], typeMap)
    decreases |outs|
  {
    var n := |outs| - 1;
    var prefix := outs[..n];
    if w in BatchWrites(prefix, typeMap) {
      j := BatchWriteOrigin(prefix, typeMap, w);
      assert outs[j] == prefix[j];
    } else {
      j := n;
    }
  }

  /** Every upsert of every outcome is part of the batch. */
  lemma {:induction false} BatchWriteIncluded(outs: seq<Outcome>, typeMap: TypeMap, j: nat, w: Write)
    requires j < |outs| && w in OutcomeWrites(outs[j], typeMap)
    ensures w in BatchWrites(outs, typeMap)
    decreases |outs|
  {
    var n := |outs| - 1;
    var prefix := outs[..n];
    if j < n {
      assert prefix[j] == outs[j];
      BatchWriteIncluded(prefix, typeMap, j, w);
    }
  }

  /**
   * When word ids are distinct (they are the words table's primary key), the
   * batch leaves each form of each conjugated word under
   * (word id, type id of its category), whatever the table held before.
   */
  lemma BatchStoresForms(outs: seq<Outcome>, typeMap: TypeMap, store: Store, i: nat, c: Code)
    requires TypeIdsDistinct(typeMap)
    requires forall a, b :: 0 <= a < b < |outs| ==> outs[a].id != outs[b].id
    requires i < |outs| && outs[i].conjugations.Some?
    requires c in outs[i].conjugations.value && c in typeMap
    ensures var k := (outs[i].id, typeMap[c]);
      k in Apply(store, BatchWrites(outs, typeMap)) &&
      Apply(store, BatchWrites(outs, typeMap))[k] == outs[i].conjugations.value[c]
  {
    var o := outs[i];
    var forms := o.conjugations.value;
    var k := (o.id, typeMap[c]);
    var writes := BatchWrites(outs, typeMap);
    DictOrderComplete(c);
    CodeWritesComplete(o.id, forms, typeMap, DictOrder, c);
    var w := Write(k, forms[c]);
    BatchWriteIncluded(outs, typeMap, i, w);
    var at :| 0 <= at < |writes| && writes[at] == w;
    forall j | 0 <= j < |writes| && writes[j].key == k
      ensures writes[j].text == forms[c]
    {
      var m := BatchWriteOrigin(outs, typeMap, writes[j]);
      OutcomeWritesKeyed(outs[m], typeMap, writes[j]);
      assert m == i;
      var ws := OutcomeWrites(o, typeMap);
      var x :| 0 <= x < |ws| && ws[x] == writes[j];
      var d := CodeWritesSound(o.id, forms, typeMap, DictOrder, x);
    }
    ApplyAgreeing(store, writes, k, forms[c], at);
  }

  /** `count` is the number of outcomes not skipped. */
  lemma {:induction false} CountIsConjugated(outs: seq<Outcome>)
    ensures |outs| - SkippedCount(outs) == |set i | 0 <= i < |outs| && !Skipped(outs[i])|
    decreases |outs|
  {
    if |outs| > 0 {
      var n := |outs| - 1;
      var prefix := outs[..n];
      CountIsConjugated(prefix);
      var all := set i | 0 <= i < |outs| && !Skipped(outs[i]);
      var pre := set i | 0 <= i < |prefix| && !Skipped(prefix[i]);
      assert pre == set i | 0 <= i < n && !Skipped(outs[i]);
      if !Skipped(outs[n]) {
        assert all == pre + {n};
      } else {
        assert all == pre;
      }
    }
  }
}
