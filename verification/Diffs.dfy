/** Diff results: which side of a comparison gives a property a value other than its default. */
module Diffs {

  /** The bits BM_SETTING_DIFF_RESULT_IN_A and BM_SETTING_DIFF_RESULT_IN_B. */
  datatype DiffResult = DiffResult(inA: bool, inB: bool) {
    function Or(other: DiffResult): DiffResult {
      DiffResult(inA || other.inA, inB || other.inB)
    }

    function Inverted(): DiffResult {
      DiffResult(inB, inA)
    }
  }

  const NEITHER := DiffResult(false, false)
  const IN_A := DiffResult(true, false)
  const IN_B := DiffResult(false, true)

  type SettingDiff = map<string, DiffResult>

  /** One table of results added to another, bits OR-ed together. */
  function Merged(d: SettingDiff, e: SettingDiff): SettingDiff {
    map k | k in d.Keys + e.Keys ::
      (if k in d then d[k] else NEITHER).Or(if k in e then e[k] else NEITHER)
  }

  lemma MergedStep(d: SettingDiff, e: SettingDiff, rest: set<string>, k: string)
    requires k in rest
    ensures k !in e ==> Merged(d, e - (rest - {k})) == Merged(d, e - rest)
    ensures k in e ==>
              var table := Merged(d, e - rest);
              Merged(d, e - (rest - {k})) == table[k := (if k in table then table[k] else NEITHER).Or(e[k])]
  {
    if k !in e {
      assert e - (rest - {k}) == e - rest;
    }
  }

  lemma MergedEnds(d: SettingDiff, e: SettingDiff, rest: set<string>)
    requires e.Keys <= rest
    ensures Merged(d, e - rest) == d && Merged(d, e - {}) == Merged(d, e)
  {
    assert e - rest == map[] && e - {} == e;
  }

  lemma MergedUnits(d: SettingDiff)
    ensures Merged(map[], d) == d && Merged(d, d) == d
  {
  }

  /** A bit is set iff it is set on either side, and what either side reports is kept. */
  lemma MergedBits(d: SettingDiff, e: SettingDiff, k: string)
    ensures k in Merged(d, e) <==> k in d || k in e
    ensures k in Merged(d, e) ==>
              && (Merged(d, e)[k].inA <==> (k in d && d[k].inA) || (k in e && e[k].inA))
              && (Merged(d, e)[k].inB <==> (k in d && d[k].inB) || (k in e && e[k].inB))
  {
  }

  lemma MergedNothing(d: SettingDiff, e: SettingDiff)
    ensures Merged(d, e) == map[] <==> d == map[] && e == map[]
  {
    if k :| k in d.Keys + e.Keys {
      assert k in Merged(d, e);
    }
  }

  // ---------- Diffs of connections ----------

  /** Setting name to results. */
  type ConnDiff = map<string, SettingDiff>

  function At(diffs: ConnDiff, n: string): SettingDiff {
    if n in diffs then diffs[n] else map[]
  }

  /** An empty table of results is never filed. */
  ghost predicate NoEmptyEntry(diffs: ConnDiff) {
    forall n | n in diffs :: diffs[n] != map[]
  }

  /** The table with more results for one name. */
  function Filed(diffs: ConnDiff, n: string, more: SettingDiff): ConnDiff {
    var d := Merged(At(diffs, n), more);
    if d == map[] then diffs else diffs[n := d]
  }

  lemma FiledAt(diffs: ConnDiff, n: string, more: SettingDiff)
    requires NoEmptyEntry(diffs)
    ensures NoEmptyEntry(Filed(diffs, n, more))
    ensures At(Filed(diffs, n, more), n) == Merged(At(diffs, n), more)
    ensures forall m | m != n :: At(Filed(diffs, n, more), m) == At(diffs, m)
    ensures n in diffs ==> Merged(At(diffs, n), more) != map[]
  {
    if n in diffs {
      var k :| k in diffs[n];
      assert k in Merged(diffs[n], more);
    }
  }

  lemma FiledNothing(diffs: ConnDiff, n: string, more: SettingDiff)
    ensures Filed(diffs, n, more) == map[] <==> diffs == map[] && more == map[]
  {
    MergedNothing(At(diffs, n), more);
    assert more != map[] ==> n in Filed(diffs, n, more);
  }
}
