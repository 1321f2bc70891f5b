/**
 * scripts/normalize_pos_sc.py: rewrites five traditional/Japanese kanji in
 * part-of-speech tags to their simplified forms, one `str.replace` per
 * pair, and updates (and counts) each fetched row whose tag changed.
 */
module NormalizePosSc {
  import opened Strings

  type Pair = (char, char)

  /** The `replacements` dict, in its order. */
  const Replacements: seq<Pair> := [('動', '动'), ('連', '连'), ('詞', '词'), ('補', '补'), ('終', '终')]

  /** The successive `new_pos = new_pos.replace(k, v)` calls over a list of pairs. */
  function ApplyAll(s: string, reps: seq<Pair>): (r: string)
    ensures |r| == |s|
    decreases |reps|
  {
    if |reps| == 0 then s
    else
      var n := |reps| - 1;
      ReplaceChar(ApplyAll(s, reps[..n]), reps[n].0, reps[n].1)
  }

  /** What the successive replacements do to one character. */
  function MapChar(c: char, reps: seq<Pair>): char
    decreases |reps|
  {
    if |reps| == 0 then c
    else
      var n := |reps| - 1;
      var d := MapChar(c, reps[..n]);
      if d == reps[n].0 then reps[n].1 else d
  }

  /** String replacement works character by character. */
  lemma {:induction false} ApplyAllPointwise(s: string, reps: seq<Pair>, j: nat)
    requires j < |s|
    ensures ApplyAll(s, reps)[j] == MapChar(s[j], reps)
    decreases |reps|
  {
    if |reps| > 0 {
      ApplyAllPointwise(s, reps[..|reps| - 1], j);
    }
  }

  /** Keys are distinct and no value is itself a key, so replacements never chain. */
  predicate NonChaining(reps: seq<Pair>) {
    (forall i, j :: 0 <= i < j < |reps| ==> reps[i].0 != reps[j].0) &&
    (forall i, j :: 0 <= i < |reps| && 0 <= j < |reps| ==> reps[i].1 != reps[j].0)
  }

  predicate IsKey(c: char, reps: seq<Pair>) {
    exists i :: 0 <= i < |reps| && reps[i].0 == c
  }

  /** For a non-chaining list, each key goes to its value and every other character stays. */
  lemma {:induction false} MapCharLookup(c: char, reps: seq<Pair>)
    requires NonChaining(reps)
    ensures !IsKey(c, reps) ==> MapChar(c, reps) == c
    ensures forall i :: 0 <= i < |reps| && reps[i].0 == c ==> MapChar(c, reps) == reps[i].1
    decreases |reps|
  {
    if |reps| > 0 {
      var n := |reps| - 1;
      var pre := reps[..n];
      assert NonChaining(pre);
      MapCharLookup(c, pre);
      assert forall k :: 0 <= k < n ==> pre[k] == reps[k];
      if IsKey(c, pre) {
        var i :| 0 <= i < n && pre[i].0 == c;
        assert reps[i].1 != reps[n].0;
      }
    }
  }

  lemma ReplacementsNonChaining()
    ensures NonChaining(Replacements)
  {
  }

  /** The simplified form of each of the five kanji, an independent per-character table. */
  function ToSimplified(c: char): char {
    if c == '動' then '动'
    else if c == '連' then '连'
    else if c == '詞' then '词'
    else if c == '補' then '补'
    else if c == '終' then '终'
    else c
  }

  /** The normalised tag, character by character. */
  function Simplify(s: string): (r: string)
    ensures |r| == |s|
  {
    seq(|s|, i requires 0 <= i < |s| => ToSimplified(s[i]))
  }

  /** The replacement chain over `Replacements` is the per-character table. */
  lemma ReplacementsAreTable(s: string)
    ensures ApplyAll(s, Replacements) == Simplify(s)
  {
    ReplacementsNonChaining();
    forall j | 0 <= j < |s|
      ensures ApplyAll(s, Replacements)[j] == Simplify(s)[j]
    {
      ApplyAllPointwise(s, Replacements, j);
      MapCharLookup(s[j], Replacements);
      var c := s[j];
      if c == '動' { assert Replacements[0].0 == c; }
      else if c == '連' { assert Replacements[1].0 == c; }
      else if c == '詞' { assert Replacements[2].0 == c; }
      else if c == '補' { assert Replacements[3].0 == c; }
      else if c == '終' { assert Replacements[4].0 == c; }
      else { assert !IsKey(c, Replacements); }
    }
  }

  /** The inner loop of `normalize_pos`: the five replacements in dict order. */
  method NormalizeText(pos: string) returns (newPos: string)
    ensures newPos == Simplify(pos)
  {
    newPos := pos;
    for i := 0 to |Replacements|
      invariant newPos == ApplyAll(pos, Replacements[..i])
    {
      var (k, v) := Replacements[i];
      assert Replacements[..i + 1][..i] == Replacements[..i];
      newPos := ReplaceChar(newPos, k, v);
    }
    assert Replacements[..|Replacements|] == Replacements;
    ReplacementsAreTable(pos);
  }

  /** Nothing to replace is left, the length is kept, and every other character stays in place. */
  lemma SimplifyResult(s: string)
    ensures |Simplify(s)| == |s|
    ensures forall j :: 0 <= j < |s| ==> Simplify(s)[j] !in {'動', '連', '詞', '補', '終'}
    ensures forall j :: 0 <= j < |s| && s[j] !in {'動', '連', '詞', '補', '終'} ==> Simplify(s)[j] == s[j]
  {
  }

  /** Normalising twice is normalising once. */
  lemma {:induction false} ApplyAllIdempotent(s: string, reps: seq<Pair>)
    requires NonChaining(reps)
    ensures ApplyAll(ApplyAll(s, reps), reps) == ApplyAll(s, reps)
  {
    var t := ApplyAll(s, reps);
    forall j | 0 <= j < |s|
      ensures ApplyAll(t, reps)[j] == t[j]
    {
      ApplyAllPointwise(t, reps, j);
      ApplyAllPointwise(s, reps, j);
      MapCharLookup(s[j], reps);
      MapCharLookup(t[j], reps);
      if IsKey(s[j], reps) {
        var i :| 0 <= i < |reps| && reps[i].0 == s[j];
        assert t[j] == reps[i].1;
      }
      assert !IsKey(t[j], reps);
    }
  }

  /** The order of a non-chaining list of pairs does not matter. */
  lemma {:induction false} ApplyAllOrderIndependent(s: string, reps1: seq<Pair>, reps2: seq<Pair>)
    requires NonChaining(reps1) && NonChaining(reps2)
    requires forall p :: p in reps1 <==> p in reps2
    ensures ApplyAll(s, reps1) == ApplyAll(s, reps2)
  {
    forall j | 0 <= j < |s|
      ensures ApplyAll(s, reps1)[j] == ApplyAll(s, reps2)[j]
    {
      ApplyAllPointwise(s, reps1, j);
      ApplyAllPointwise(s, reps2, j);
      MapCharLookup(s[j], reps1);
      MapCharLookup(s[j], reps2);
      if IsKey(s[j], reps1) {
        var i :| 0 <= i < |reps1| && reps1[i].0 == s[j];
        assert reps1[i] in reps2;
        var k :| 0 <= k < |reps2| && reps2[k] == reps1[i];
      } else {
        forall k | 0 <= k < |reps2|
          ensures reps2[k].0 != s[j]
        {
          assert reps2[k] in reps1;
        }
      }
    }
  }

  /** `normalize_pos` is idempotent and any order of the five pairs gives the same tag. */
  lemma SimplifyIdempotentAnyOrder(s: string, reordered: seq<Pair>)
    requires NonChaining(reordered)
    requires forall p :: p in reordered <==> p in Replacements
    ensures Simplify(Simplify(s)) == Simplify(s)
    ensures ApplyAll(s, reordered) == Simplify(s)
  {
    ReplacementsNonChaining();
    ReplacementsAreTable(s);
    ReplacementsAreTable(Simplify(s));
    ApplyAllIdempotent(s, Replacements);
    ApplyAllOrderIndependent(s, reordered, Replacements);
  }

  predicate HasKey(s: string) {
    exists j :: 0 <= j < |s| && s[j] in {'動', '連', '詞', '補', '終'}
  }

  /** A tag changes exactly when it contains one of the five kanji. */
  lemma SimplifyChangesIff(s: string)
    ensures Simplify(s) != s <==> HasKey(s)
  {
    if HasKey(s) {
      var j :| 0 <= j < |s| && s[j] in {'動', '連', '詞', '補', '終'};
      assert Simplify(s)[j] != s[j];
    }
    if !HasKey(s) {
      assert forall j :: 0 <= j < |s| ==> Simplify(s)[j] == s[j];
    }
  }

  // ------------------------------------------------------------------ rows

  /** A fetched `(id, word, part_of_speech)` row; a NULL tag never satisfies `LIKE`. */
  datatype PosRow = PosRow(id: int, word: string, pos: string)

  /** One `UPDATE words SET part_of_speech = ? WHERE id = ?`. */
  datatype PosUpdate = PosUpdate(id: int, pos: string)

  /** The `UPDATE ... WHERE id = ?` statements issued for rows whose tag `f` changes, in row order. */
  function Changes(rows: seq<PosRow>, f: string -> string): (u: seq<PosUpdate>)
    ensures |u| <= |rows|
    decreases |rows|
  {
    if |rows| == 0 then []
    else
      var n := |rows| - 1;
      var r := rows[n];
      Changes(rows[..n], f) + (if f(r.pos) != r.pos then [PosUpdate(r.id, f(r.pos))] else [])
  }

  /** Every update comes from a fetched row, carries its id, and really changes its tag. */
  lemma {:induction false} ChangesSound(rows: seq<PosRow>, f: string -> string, k: nat) returns (i: nat)
    requires k < |Changes(rows, f)|
    ensures i < |rows|
    ensures Changes(rows, f)[k] == PosUpdate(rows[i].id, f(rows[i].pos)) && f(rows[i].pos) != rows[i].pos
    decreases |rows|
  {
    var n := |rows| - 1;
    if k < |Changes(rows[..n], f)| {
      i := ChangesSound(rows[..n], f, k);
      assert rows[..n][i] == rows[i];
    } else {
      i := n;
    }
  }

  /** When every row changes, every row is updated, in order. */
  lemma {:induction false} ChangesAll(rows: seq<PosRow>, f: string -> string)
    requires forall i :: 0 <= i < |rows| ==> f(rows[i].pos) != rows[i].pos
    ensures |Changes(rows, f)| == |rows|
    ensures forall i :: 0 <= i < |rows| ==> Changes(rows, f)[i] == PosUpdate(rows[i].id, f(rows[i].pos))
    decreases |rows|
  {
    if |rows| > 0 {
      var n := |rows| - 1;
      ChangesAll(rows[..n], f);
    }
  }

  /** `WHERE part_of_speech LIKE '%動%' OR ...`: the rows whose tag contains a key. */
  function Select(table: seq<PosRow>): (rows: seq<PosRow>)
    ensures forall i :: 0 <= i < |rows| ==> HasKey(rows[i].pos)
    decreases |table|
  {
    if |table| == 0 then []
    else
      var n := |table| - 1;
      Select(table[..n]) + (if HasKey(table[n].pos) then [table[n]] else [])
  }

  /** The row loop of `normalize_pos`; an empty result returns before any update. */
  method NormalizeRows(rows: seq<PosRow>) returns (updates: seq<PosUpdate>, count: nat)
    ensures updates == Changes(rows, Simplify)
    ensures count == |updates| && count <= |rows|
    ensures |rows| == 0 ==> updates == [] && count == 0
  {
    updates := [];
    count := 0;
    if |rows| == 0 {
      return;
    }
    for i := 0 to |rows|
      invariant updates == Changes(rows[..i], Simplify)
      invariant count == |updates|
    {
      var r := rows[i];
      var newPos := NormalizeText(r.pos);
      assert rows[..i + 1][..i] == rows[..i];
      if newPos != r.pos {
        updates := updates + [PosUpdate(r.id, newPos)];
        count := count + 1;
      }
    }
    assert rows[..|rows|] == rows;
  }

  /** Every row the query returns holds a key, so every fetched row is updated and counted. */
  lemma SelectedAllChange(table: seq<PosRow>)
    ensures |Changes(Select(table), Simplify)| == |Select(table)|
    ensures forall i :: 0 <= i < |Select(table)| ==>
      Changes(Select(table), Simplify)[i] == PosUpdate(Select(table)[i].id, Simplify(Select(table)[i].pos))
  {
    var rows := Select(table);
    forall i | 0 <= i < |rows|
      ensures Simplify(rows[i].pos) != rows[i].pos
    {
      SimplifyChangesIff(rows[i].pos);
    }
    ChangesAll(rows, Simplify);
  }
}
