/** map.go: copying and merging string-keyed maps. */
module Maps {

  /** CopyMap: a map with exactly the keys of `m`, each bound to the same value. */
  function CopyMap<T>(m: map<string, T>): (r: map<string, T>)
    ensures r.Keys == m.Keys
    ensures forall k :: k in r ==> r[k] == m[k]
  {
    map k | k in m :: m[k]
  }

  /** MergeMap: the union of the maps, each key bound to its value in the
      last map that holds it (later maps overwrite earlier ones). */
  function MergeMap<T>(maps: seq<map<string, T>>): (r: map<string, T>)
    ensures HoldsKeysOf(r, maps)
    ensures HoldsLastValuesOf(r, maps)
  {
    if |maps| == 0 then map[]
    else
      var n := |maps| - 1;
      var prev := MergeMap(maps[..n]);
      MergeStepKeys(maps, prev);
      MergeStepValues(maps, prev);
      prev + maps[n]
  }

  /** `r` holds exactly the keys some map holds. */
  ghost predicate HoldsKeysOf<T>(r: map<string, T>, maps: seq<map<string, T>>) {
    forall k :: k in r <==> exists i :: 0 <= i < |maps| && k in maps[i]
  }

  /** `r` binds each key to its value in the last map that holds it. */
  ghost predicate HoldsLastValuesOf<T>(r: map<string, T>, maps: seq<map<string, T>>) {
    forall k, i :: 0 <= i < |maps| && k in maps[i] && (forall j :: i < j < |maps| ==> k !in maps[j]) ==>
      k in r && r[k] == maps[i][k]
  }

  lemma MergeStepKeys<T>(maps: seq<map<string, T>>, prev: map<string, T>)
    requires |maps| > 0 && HoldsKeysOf(prev, maps[..|maps| - 1])
    ensures HoldsKeysOf(prev + maps[|maps| - 1], maps)
  {
    var n := |maps| - 1;
    var r := prev + maps[n];
    forall k | k in r
      ensures exists i :: 0 <= i < |maps| && k in maps[i]
    {
      if k !in maps[n] {
        var i :| 0 <= i < n && k in maps[..n][i];
        assert k in maps[i];
      }
    }
    forall k | exists i :: 0 <= i < |maps| && k in maps[i]
      ensures k in r
    {
      var i :| 0 <= i < |maps| && k in maps[i];
      if i < n {
        assert k in maps[..n][i];
      }
    }
  }

  lemma MergeStepValues<T>(maps: seq<map<string, T>>, prev: map<string, T>)
    requires |maps| > 0 && HoldsLastValuesOf(prev, maps[..|maps| - 1])
    ensures HoldsLastValuesOf(prev + maps[|maps| - 1], maps)
  {
    var n := |maps| - 1;
    var init := maps[..n];
    forall k, i | 0 <= i < |maps| && k in maps[i] && (forall j :: i < j < |maps| ==> k !in maps[j])
      ensures k in prev + maps[n] && (prev + maps[n])[k] == maps[i][k]
    {
      if i < n {
        assert k in init[i];
        assert forall j :: i < j < n ==> init[j] == maps[j];
      }
    }
  }

  /** Merging nothing gives the empty map. */
  lemma MergeMapEmpty<T>()
    ensures MergeMap<T>([]) == map[]
  {
  }

  /** Merging one map copies it. */
  lemma MergeMapSingle<T>(m: map<string, T>)
    ensures MergeMap([m]) == CopyMap(m)
  {
  }

  /** Merging two maps overrides the first with the second. */
  lemma MergeMapPair<T>(a: map<string, T>, b: map<string, T>)
    ensures MergeMap([a, b]) == a + b
  {
    MergeMapOne(a);
    assert [a, b][..1] == [a];
  }

  lemma MergeMapOne<T>(a: map<string, T>)
    ensures MergeMap([a]) == a
  {
    assert [a][..0] == [];
    assert map[] + a == a;
  }

  /** Merging in one more map overrides the merge so far with it. */
  lemma {:induction false} MergeMapSnoc<T>(maps: seq<map<string, T>>, m: map<string, T>)
    ensures MergeMap(maps + [m]) == MergeMap(maps) + m
  {
    assert (maps + [m])[..|maps|] == maps;
  }
}
