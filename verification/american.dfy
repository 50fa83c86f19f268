/**
 The American option price matrix: the same two-axis substitution as the
 European matrix, with the cell formula chosen once, for the whole matrix,
 between the perpetual call and put approximations.
 */
module AmericanMatrix {
  import opened OptionParams
  import opened Formulas
  import opened Sweep

  /** American call or put prices obtained by varying two parameters over two
      meshes; each cell's parameters go through the keyed map of the base tuple. */
  method ComputeAmericanMatrix(param1Values: seq<real>, param1Type: ParamType,
                               param2Values: seq<real>, param2Type: ParamType,
                               isCall: bool, af: AmericanFormulas, base: Params)
    returns (matrix: seq<seq<real>>)
    ensures IsGrid(matrix, param1Values, param1Type, param2Values, param2Type, base, American(af, isCall))
  {
    matrix := [];
    for m := 0 to |param1Values|
      invariant IsGrid(matrix, param1Values[..m], param1Type, param2Values, param2Type, base, American(af, isCall))
    {
      var row: seq<real> := [];
      for n := 0 to |param2Values|
        invariant |row| == n
        invariant forall j :: 0 <= j < n ==>
          row[j] == AmericanValue(af, isCall,
                      GetParameters(param2Values[j], param2Type, GetParameters(param1Values[m], param1Type, base)))
      {
        var p := CellParams(base, param1Type, param1Values[m], param2Type, param2Values[n]);
        if isCall {
          row := row + [af.call(p.s, p.k, p.r, p.sig, p.b)];
        } else {
          row := row + [af.put(p.s, p.k, p.r, p.sig, p.b)];
        }
      }
      matrix := matrix + [row];
    }
    assert param1Values[..|param1Values|] == param1Values;
  }

  /** The call/put choice is uniform: with `isCall` every cell is the call
      formula at its cell's parameters, otherwise every cell is the put formula. */
  lemma AmericanFormulaIsUniform(matrix: seq<seq<real>>, mesh1: seq<real>, slot1: ParamType,
                                 mesh2: seq<real>, slot2: ParamType, isCall: bool,
                                 af: AmericanFormulas, base: Params, i: int, j: int)
    requires IsGrid(matrix, mesh1, slot1, mesh2, slot2, base, American(af, isCall))
    requires 0 <= i < |mesh1| && 0 <= j < |mesh2|
    ensures var p := GetParameters(mesh2[j], slot2, GetParameters(mesh1[i], slot1, base));
            && (isCall ==> matrix[i][j] == af.call(p.s, p.k, p.r, p.sig, p.b))
            && (!isCall ==> matrix[i][j] == af.put(p.s, p.k, p.r, p.sig, p.b))
  {
    assert |matrix[i]| == |mesh2|;
  }

  /** When the first axis sweeps the time to expiry and the second axis
      another slot, every column is constant: the American formula never
      reads T. */
  lemma ConstantAlongExpiryRows(matrix: seq<seq<real>>, mesh1: seq<real>,
                                mesh2: seq<real>, slot2: ParamType, v: bool,
                                af: AmericanFormulas, base: Params)
    requires IsGrid(matrix, mesh1, T, mesh2, slot2, base, American(af, v))
    requires slot2 != T
    ensures forall i, i', j :: 0 <= i < |mesh1| && 0 <= i' < |mesh1| && 0 <= j < |mesh2| ==>
              matrix[i][j] == matrix[i'][j]
  {
    forall i, j | 0 <= i < |mesh1| && 0 <= j < |mesh2|
      ensures matrix[i][j] == AmericanValue(af, v, GetParameters(mesh2[j], slot2, base))
    {
      DistinctSlotsCommute(mesh1[i], T, mesh2[j], slot2, base);
      AmericanIgnoresExpiry(af, v, GetParameters(mesh2[j], slot2, base), mesh1[i]);
    }
  }

  /** When the second axis sweeps the time to expiry and the first axis
      another slot, every row is constant. */
  lemma ConstantAlongExpiryColumns(matrix: seq<seq<real>>, mesh1: seq<real>, slot1: ParamType,
                                   mesh2: seq<real>, v: bool, af: AmericanFormulas, base: Params)
    requires IsGrid(matrix, mesh1, slot1, mesh2, T, base, American(af, v))
    requires slot1 != T
    ensures forall i, j, j' :: 0 <= i < |mesh1| && 0 <= j < |mesh2| && 0 <= j' < |mesh2| ==>
              matrix[i][j] == matrix[i][j']
  {
    forall i, j | 0 <= i < |mesh1| && 0 <= j < |mesh2|
      ensures matrix[i][j] == AmericanValue(af, v, GetParameters(mesh1[i], slot1, base))
    {
      AmericanIgnoresExpiry(af, v, GetParameters(mesh1[i], slot1, base), mesh2[j]);
    }
  }

  /** The American matrix is the European matrix of a formula set whose call
      price is the selected American formula: the substitution is the same,
      only the cell formula differs. */
  lemma AmericanMatrixIsValueMatrix(am: seq<seq<real>>, vm: seq<seq<real>>,
                                    mesh1: seq<real>, slot1: ParamType,
                                    mesh2: seq<real>, slot2: ParamType,
                                    isCall: bool, af: AmericanFormulas, fs: FormulaSet, base: Params)
    requires IsGrid(am, mesh1, slot1, mesh2, slot2, base, American(af, isCall))
    requires IsGrid(vm, mesh1, slot1, mesh2, slot2, base, European(fs, Price))
    requires forall p :: Apply(fs.callPrice, p) == AmericanValue(af, isCall, p)
    ensures am == vm
  {
    assert IsGrid(vm, mesh1, slot1, mesh2, slot2, base, American(af, isCall));
    GridUnique(am, vm, mesh1, slot1, mesh2, slot2, base, American(af, isCall));
  }
}
