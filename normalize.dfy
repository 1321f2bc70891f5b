/**
 * scripts/normalize_pos.py: turns the simplified 动 of part-of-speech tags
 * back into 動, and updates (and counts) each fetched row whose tag changed.
 */
module NormalizePos {
  import opened Strings
  import opened NormalizePosSc

  /** `pos.replace('动', '動')` */
  function Traditional(pos: string): (r: string)
    ensures |r| == |pos|
  {
    ReplaceChar(pos, '动', '動')
  }

  /** No 动 is left, and every other character stays where it was. */
  lemma TraditionalResult(s: string)
    ensures forall j :: 0 <= j < |s| ==> Traditional(s)[j] != '动'
    ensures forall j :: 0 <= j < |s| ==> Traditional(s)[j] == if s[j] == '动' then '動' else s[j]
    ensures Traditional(s) == s <==> forall j :: 0 <= j < |s| ==> s[j] != '动'
  {
    if Traditional(s) == s {
      forall j | 0 <= j < |s|
        ensures s[j] != '动'
      {
        assert Traditional(s)[j] == s[j];
      }
    }
  }

  /** Replacing twice is replacing once. */
  lemma TraditionalIdempotent(s: string)
    ensures Traditional(Traditional(s)) == Traditional(s)
  {
    TraditionalResult(Traditional(s));
    TraditionalResult(s);
  }

  /**
   * The two normalisers undo each other on 動/动: a tag without any of the
   * simplified characters, and without the four other traditional kanji, comes back unchanged.
   */
  lemma RoundTrip(s: string)
    requires forall j :: 0 <= j < |s| ==> s[j] !in {'动', '连', '词', '补', '终', '連', '詞', '補', '終'}
    ensures Traditional(Simplify(s)) == s
  {
    forall j | 0 <= j < |s|
      ensures Traditional(Simplify(s))[j] == s[j]
    {
    }
  }

  /** The other way round: a simplified tag without 動 survives `Traditional` then `Simplify`. */
  lemma RoundTripSimplified(s: string)
    requires forall j :: 0 <= j < |s| ==> s[j] != '動' && s[j] !in {'連', '詞', '補', '終'}
    ensures Simplify(Traditional(s)) == s
  {
    forall j | 0 <= j < |s|
      ensures Simplify(Traditional(s))[j] == s[j]
    {
    }
  }

  /** The row loop of `normalize_pos`; an empty result returns before any update. */
  method NormalizeRows(rows: seq<PosRow>) returns (updates: seq<PosUpdate>, count: nat)
    ensures updates == Changes(rows, Traditional)
    ensures count == |updates| && count <= |rows|
    ensures |rows| == 0 ==> updates == [] && count == 0
  {
    updates := [];
    count := 0;
    if |rows| == 0 {
      return;
    }
    for i := 0 to |rows|
      invariant updates == Changes(rows[..i], Traditional)
      invariant count == |updates|
    {
      var r := rows[i];
      var newPos := Traditional(r.pos);
      assert rows[..i + 1][..i] == rows[..i];
      if newPos != r.pos {
        updates := updates + [PosUpdate(r.id, newPos)];
        count := count + 1;
      }
    }
    assert rows[..|rows|] == rows;
  }

  predicate HasSimplified(s: string) {
    exists j :: 0 <= j < |s| && s[j] == '动'
  }

  /** `WHERE part_of_speech LIKE '%动%'` */
  function SelectSimplified(table: seq<PosRow>): (rows: seq<PosRow>)
    ensures forall i :: 0 <= i < |rows| ==> HasSimplified(rows[i].pos)
    decreases |table|
  {
    if |table| == 0 then []
    else
      var n := |table| - 1;
      var r := table[n];
      SelectSimplified(table[..n]) + (if HasSimplified(r.pos) then [r] else [])
  }

  /** Every fetched row holds 动, so every fetched row is updated and counted. */
  lemma SelectedAllChange(table: seq<PosRow>)
    ensures |Changes(SelectSimplified(table), Traditional)| == |SelectSimplified(table)|
    ensures forall i :: 0 <= i < |SelectSimplified(table)| ==>
      Changes(SelectSimplified(table), Traditional)[i]
        == PosUpdate(SelectSimplified(table)[i].id, Traditional(SelectSimplified(table)[i].pos))
  {
    var rows := SelectSimplified(table);
    forall i | 0 <= i < |rows|
      ensures Traditional(rows[i].pos) != rows[i].pos
    {
      TraditionalResult(rows[i].pos);
    }
    ChangesAll(rows, Traditional);
  }
}
