/**
 The sweep engine of the European option price matrix: a one-axis sweep that
 yields one value per mesh point, and a two-axis sweep that yields a
 rectangular matrix, rows following the first mesh and columns the second.
 */
module Sweep {
  import opened OptionParams
  import opened Formulas

  /** `values` holds, for each point of `mesh` in order, the valuation of
      the base tuple with `slot` set to that point. */
  predicate IsSweep(values: seq<real>, mesh: seq<real>, slot: ParamType, base: Params, v: Valuation)
  {
    && |values| == |mesh|
    && forall i :: 0 <= i < |mesh| ==> values[i] == Evaluate(v, GetParameters(mesh[i], slot, base))
  }

  /** `matrix` has one row per point of `mesh1` and one column per point of
      `mesh2`; cell [i][j] values the base tuple with `slot1` set to
      `mesh1[i]` and then `slot2` set to `mesh2[j]`. */
  predicate IsGrid(matrix: seq<seq<real>>, mesh1: seq<real>, slot1: ParamType,
                   mesh2: seq<real>, slot2: ParamType, base: Params, v: Valuation)
  {
    && |matrix| == |mesh1|
    && (forall i :: 0 <= i < |matrix| ==> |matrix[i]| == |mesh2|)
    && forall i, j {:trigger matrix[i][j]} :: 0 <= i < |matrix| && 0 <= j < |matrix[i]| ==>
         matrix[i][j] == Evaluate(v, GetParameters(mesh2[j], slot2, GetParameters(mesh1[i], slot1, base)))
  }

  /** The prices or Greeks obtained by varying one parameter over a mesh. */
  method ComputeValues(paramValues: seq<real>, paramType: ParamType, greekType: GreekType,
                       fs: FormulaSet, base: Params)
    returns (values: seq<real>)
    ensures IsSweep(values, paramValues, paramType, base, European(fs, greekType))
  {
    values := [];
    for n := 0 to |paramValues|
      invariant IsSweep(values, paramValues[..n], paramType, base, European(fs, greekType))
    {
      var args := GetParameters(paramValues[n], paramType, base);
      values := values + [CalculateGreek(fs, greekType, args)];
    }
    assert paramValues[..|paramValues|] == paramValues;
  }

  /** The prices or Greeks obtained by varying two parameters over two meshes;
      each cell's parameters go through the keyed map of the base tuple. */
  method ComputeValueMatrix(param1Values: seq<real>, param1Type: ParamType,
                            param2Values: seq<real>, param2Type: ParamType,
                            greekType: GreekType, fs: FormulaSet, base: Params)
    returns (matrix: seq<seq<real>>)
    ensures IsGrid(matrix, param1Values, param1Type, param2Values, param2Type, base, European(fs, greekType))
  {
    matrix := [];
    for m := 0 to |param1Values|
      invariant IsGrid(matrix, param1Values[..m], param1Type, param2Values, param2Type, base, European(fs, greekType))
    {
      var row: seq<real> := [];
      for n := 0 to |param2Values|
        invariant |row| == n
        invariant forall j :: 0 <= j < n ==>
          row[j] == CalculateGreek(fs, greekType,
                      GetParameters(param2Values[j], param2Type, GetParameters(param1Values[m], param1Type, base)))
      {
        var params := CellParams(base, param1Type, param1Values[m], param2Type, param2Values[n]);
        row := row + [CalculateGreek(fs, greekType, params)];
      }
      matrix := matrix + [row];
    }
    assert param1Values[..|param1Values|] == param1Values;
  }

  /** A grid is determined by its meshes, slots, base tuple and valuation. */
  lemma GridUnique(m1: seq<seq<real>>, m2: seq<seq<real>>, mesh1: seq<real>, slot1: ParamType,
                   mesh2: seq<real>, slot2: ParamType, base: Params, v: Valuation)
    requires IsGrid(m1, mesh1, slot1, mesh2, slot2, base, v)
    requires IsGrid(m2, mesh1, slot1, mesh2, slot2, base, v)
    ensures m1 == m2
  {
    forall i | 0 <= i < |m1|
      ensures m1[i] == m2[i]
    {
      assert |m1[i]| == |m2[i]|;
      assert forall j :: 0 <= j < |m1[i]| ==> m1[i][j] == m2[i][j];
    }
  }

  /** Degenerate meshes: an empty first mesh gives no rows, an empty second
      mesh gives one empty row per point of the first. */
  lemma GridOfEmptyMesh(matrix: seq<seq<real>>, mesh1: seq<real>, slot1: ParamType,
                        mesh2: seq<real>, slot2: ParamType, base: Params, v: Valuation)
    requires IsGrid(matrix, mesh1, slot1, mesh2, slot2, base, v)
    ensures mesh1 == [] ==> matrix == []
    ensures mesh2 == [] ==> forall i :: 0 <= i < |matrix| ==> matrix[i] == []
  {
  }

  /** Row i of a grid is the one-axis sweep over the second mesh, starting
      from the base tuple with the first slot already set to `mesh1[i]`. */
  lemma RowIsSweep(matrix: seq<seq<real>>, mesh1: seq<real>, slot1: ParamType,
                   mesh2: seq<real>, slot2: ParamType, base: Params, v: Valuation, i: int)
    requires IsGrid(matrix, mesh1, slot1, mesh2, slot2, base, v)
    requires 0 <= i < |mesh1|
    ensures IsSweep(matrix[i], mesh2, slot2, GetParameters(mesh1[i], slot1, base), v)
  {
  }

  /** Column j of a matrix whose rows all have more than j entries. */
  function Column(matrix: seq<seq<real>>, j: nat): (col: seq<real>)
    requires forall i :: 0 <= i < |matrix| ==> j < |matrix[i]|
    ensures |col| == |matrix|
    ensures forall i :: 0 <= i < |matrix| ==> col[i] == matrix[i][j]
  {
    seq(|matrix|, i requires 0 <= i < |matrix| => matrix[i][j])
  }

  /** When the two slots differ, column j of a grid is the one-axis sweep over
      the first mesh, starting from the base tuple with the second slot preset
      to `mesh2[j]`. */
  lemma ColumnIsSweep(matrix: seq<seq<real>>, mesh1: seq<real>, slot1: ParamType,
                      mesh2: seq<real>, slot2: ParamType, base: Params, v: Valuation, j: nat)
    requires IsGrid(matrix, mesh1, slot1, mesh2, slot2, base, v)
    requires slot1 != slot2
    requires j < |mesh2|
    ensures IsSweep(Column(matrix, j), mesh1, slot1, GetParameters(mesh2[j], slot2, base), v)
  {
    var col := Column(matrix, j);
    forall i | 0 <= i < |mesh1|
      ensures col[i] == Evaluate(v, GetParameters(mesh1[i], slot1, GetParameters(mesh2[j], slot2, base)))
    {
      DistinctSlotsCommute(mesh1[i], slot1, mesh2[j], slot2, base);
    }
  }

  /** When both axes name the same slot, the second write wins: every cell
      depends only on its column's mesh value, so all rows are equal. */
  lemma SameSlotGrid(matrix: seq<seq<real>>, mesh1: seq<real>, slot: ParamType,
                     mesh2: seq<real>, base: Params, v: Valuation)
    requires IsGrid(matrix, mesh1, slot, mesh2, slot, base, v)
    ensures forall i, j :: 0 <= i < |matrix| && 0 <= j < |mesh2| ==>
              matrix[i][j] == Evaluate(v, GetParameters(mesh2[j], slot, base))
    ensures forall i, i' :: 0 <= i < |matrix| && 0 <= i' < |matrix| ==> matrix[i] == matrix[i']
  {
    forall i, j | 0 <= i < |matrix| && 0 <= j < |mesh2|
      ensures matrix[i][j] == Evaluate(v, GetParameters(mesh2[j], slot, base))
    {
      SameSlotLastWriteWins(mesh1[i], mesh2[j], slot, base);
    }
    forall i, i' | 0 <= i < |matrix| && 0 <= i' < |matrix|
      ensures matrix[i] == matrix[i']
    {
      assert |matrix[i]| == |matrix[i']|;
      assert forall j :: 0 <= j < |matrix[i]| ==> matrix[i][j] == matrix[i'][j];
    }
  }
}
