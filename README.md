# IF over spreadsheet value objects

A Dafny model of the spreadsheet `IF` function of the Univer formula engine
(`If.calculate` with its helpers `_getSingleValueObject` and
`_calculateSingleCell`) and of the small part of the formula value model it
relies on.

- `ValueObjects` (value_object.dfy): a value object is a `Scalar` cell or an
  `Array` of cells. A cell is a number, a boolean, a text, the empty `Null`
  cell or an `Error` marker. Arrays hold cells, so they cannot nest.
  `WellFormed` is the array invariant: at least 1 by 1, and rectangular.
  `IsError` is `isError()`. `Truthy` is JavaScript truthiness of
  `getValue()`: 0, `false`, `""` and null are falsy.
- `ArrayObjects` (array_object.dfy): `getFirstCell`, `ArrayValueObject.map`
  and `expandArrayValueObject`. Their source is not part of this model, so
  they are stated as assumptions. `Map` keeps the shape and rewrites cell
  (r, c) from the cell and its position. `Expand` gives an array of the
  requested shape. A scalar fills every cell. An array's own cells are
  copied, and the fill cell goes everywhere outside its bounds. An array
  that already has the requested shape comes back unchanged.
- `LogicalIf` (logical_if.dfy): `Calculate` follows `If.calculate` step by
  step. A missing argument (`None`) gives NA. An error condition is returned,
  and after it an error true-branch. A 1 by 1 condition is unwrapped. A
  non-array condition returns a branch verbatim. Otherwise `ArrayPath`
  broadcasts the three operands and maps `CalculateSingleCell` over the grid.
  The false-branch is a default parameter, the boolean false scalar, as in
  the source.
- `Host` holds two behaviours of unseen collaborators that `IF` depends on.
  The first is whether `getValue()` of an error marker is truthy. The second
  is the fill cell `expandArrayValueObject` uses when no fill is passed,
  which is what happens for the condition at line 59. Every lemma holds for
  every `Host`, under the hypotheses it states about it. Two further
  assumptions about unseen value classes are fixed in the model rather than
  left open; "## Left out" names them (`ValueObjects.IsError`,
  `ValueObjects.Truthy`).
- `IfLaws` (if_laws.dfy): the promises of `If.calculate` as all-input lemmas.
  `IfScenarios` (if_scenarios.dfy): worked examples.
  `IfFindings` (if_findings.dfy): the findings below.

A consequence of the source that differs from common spreadsheet practice:

- With a false condition the source at line 34 still returns an error
  true-branch, so IF(FALSE, #REF!, 1) is #REF!
  (`IfScenarios.ErrorPrecedenceExamples`).

On the scalar path, only an absent argument becomes NA (line 26). A `Null` condition is falsy
under the `ValueObjects.Truthy` assumption, as in common spreadsheets, and
selects the false-branch.

## Model

| member | source | states |
|---|---|---|
| `ValueObjects.IsError` | packages/engine-formula/src/functions/logical/if/index.ts:30-36 | `isError()` holds of a single cell exactly when it is an error marker, and (assumed, see "## Left out") never of an array |
| `ValueObjects.Truthy` | packages/engine-formula/src/functions/logical/if/index.ts:87-90 | truthiness of `getValue()`: a boolean is its own truth value, an error's truthiness is the host's choice, and a null cell is falsy (assumed, see "## Left out") |
| `ValueObjects.RowCount` | packages/engine-formula/src/functions/logical/if/index.ts:46-50 | an operand's row extent for broadcasting is its own row count for an array and 1 for a non-array, so at least 1 |
| `ValueObjects.ColumnCount` | packages/engine-formula/src/functions/logical/if/index.ts:53-57 | an operand's column extent for broadcasting is its own column count for an array and 1 for a non-array, so at least 1 |
| `ValueObjects.TruthinessPartition` | packages/engine-formula/src/functions/logical/if/index.ts:42 | a non-error cell is falsy exactly when it is 0, false, "" or null |
| `ArrayObjects.FirstCell` | packages/engine-formula/src/functions/logical/if/index.ts:77 | `getFirstCell()` is the cell at row 0, column 0, and a 1 by 1 array holds exactly that cell |
| `ArrayObjects.Map` | packages/engine-formula/src/functions/logical/if/index.ts:63-72 | (assumed) `map` keeps the shape and its cell (r, c) is the callback applied to cell (r, c) and its position |
| `ArrayObjects.Expand` | packages/engine-formula/src/functions/logical/if/index.ts:59-61 | (assumed) expansion has the requested shape; a scalar fills every cell, an array's own cells are copied and the fill occupies every cell outside its bounds |
| `ArrayObjects.ExpandKeepsMatchingArray` | packages/engine-formula/src/functions/logical/if/index.ts:59-61 | expanding an array to its own shape gives back the same array |
| `LogicalIf.Max3` | packages/engine-formula/src/functions/logical/if/index.ts:46-57 | `Math.max` of three: no smaller than any argument and equal to one of them |
| `LogicalIf.SingleValueObject` | packages/engine-formula/src/functions/logical/if/index.ts:75-80 | the result is never a 1 by 1 array; it differs from the input only when the input is a 1 by 1 array, and then it is that array's first cell |
| `LogicalIf.CalculateSingleCell` | packages/engine-formula/src/functions/logical/if/index.ts:82-103 | a null condition gives NA; a truthy condition gives the true cell and a falsy one the false cell, a selected null giving NA; the result is never null |
| `LogicalIf.BroadcastRows` | packages/engine-formula/src/functions/logical/if/index.ts:46-50 | the broadcast row count is the largest row extent of the three operands |
| `LogicalIf.BroadcastColumns` | packages/engine-formula/src/functions/logical/if/index.ts:53-57 | the broadcast column count is the largest column extent of the three operands |
| `LogicalIf.ArrayPath` | packages/engine-formula/src/functions/logical/if/index.ts:45-72 | the array path yields a well-formed array of the broadcast shape |
| `LogicalIf.Calculate` | packages/engine-formula/src/functions/logical/if/index.ts:25-73 | `If.calculate` always returns a well-formed value object |
| `IfLaws.MissingArgumentIsNA` | packages/engine-formula/src/functions/logical/if/index.ts:26-28 | a missing condition or true-branch gives NA whatever the other arguments are |
| `IfLaws.ErrorShortCircuit` | packages/engine-formula/src/functions/logical/if/index.ts:30-36 | an error condition is returned unchanged; an error true-branch is returned unchanged when the condition is not an error |
| `IfLaws.DefaultFalseBranch` | packages/engine-formula/src/functions/logical/if/index.ts:25 | with the false-branch left out, a falsy scalar condition yields the boolean false scalar |
| `IfLaws.FalseBranchErrorNotPrechecked` | packages/engine-formula/src/functions/logical/if/index.ts:30-42 | an error false-branch is not pre-checked: a truthy non-error scalar condition still yields the true-branch |
| `IfLaws.SingletonConditionIsItsCell` | packages/engine-formula/src/functions/logical/if/index.ts:39 | a 1 by 1 condition array holding a non-error cell gives the same result as that cell, for every pair of branches |
| `IfLaws.ScalarPath` | packages/engine-formula/src/functions/logical/if/index.ts:41-43 | with a non-array condition after unwrapping, the result is exactly the true-branch if the condition is truthy and exactly the false-branch otherwise |
| `IfLaws.ArrayPathShape` | packages/engine-formula/src/functions/logical/if/index.ts:46-63 | on the array path the result is an array whose extents are the per-dimension maxima of the three operands, so never smaller than the condition |
| `IfLaws.ArrayPathCell` | packages/engine-formula/src/functions/logical/if/index.ts:59-72 | each result cell, in terms of the operands' aligned cells: NA for a null condition cell, else the true or false cell by truthiness (NA outside a branch array), NA if that is null |
| `IfLaws.ArrayPathHasNoNullCells` | packages/engine-formula/src/functions/logical/if/index.ts:64-65 | no cell of an array-path result is null |
| `IfScenarios.ScalarSelections` | packages/engine-formula/src/functions/logical/if/index.ts:41-43 | IF(TRUE, 5, 10) is 5 and IF(0, "a", "b") is "b" |
| `IfScenarios.MissingConditionExample` | packages/engine-formula/src/functions/logical/if/index.ts:26-28 | IF with no condition is #N/A |
| `IfScenarios.ErrorPrecedenceExamples` | packages/engine-formula/src/functions/logical/if/index.ts:30-36 | IF(#DIV/0!, #REF!, 1) is #DIV/0! and IF(FALSE, #REF!, 1) is #REF! |
| `IfScenarios.ScalarPathKeepsNull` | packages/engine-formula/src/functions/logical/if/index.ts:42 | a selected null scalar branch is returned as null on the scalar path |
| `IfScenarios.RowConditionExample` | packages/engine-formula/src/functions/logical/if/index.ts:59-72 | IF({TRUE, FALSE}, {1, 2}, 0) is {1, 0} |
| `IfScenarios.SquareConditionExample` | packages/engine-formula/src/functions/logical/if/index.ts:59-72 | IF({TRUE, FALSE; FALSE, TRUE}, 100, {200}) is {100, #N/A; #N/A, 100} under the assumed padding |
| `IfScenarios.BroadcastShapeExample` | packages/engine-formula/src/functions/logical/if/index.ts:46-57 | a 2 by 1 condition with a 1 by 3 true-branch gives a 2 by 3 result |
| `IfFindings.SingletonErrorConditionIsDropped` | packages/engine-formula/src/functions/logical/if/index.ts:30-42 | as written, IF({#N/A}, 1, 2) is 1 or 2, never #N/A |
| `IfFindings.ArrayErrorCellIsDropped` | packages/engine-formula/src/functions/logical/if/index.ts:63-90 | as written, the first cell of IF({#N/A, TRUE}, 1, 2) is 1 or 2, never #N/A |
| `IfFindings.IntendedArrayPath` | packages/engine-formula/src/functions/logical/if/index.ts:63-72 | the corrected array path yields a well-formed array of the broadcast shape |
| `IfFindings.CalculateIntended` | packages/engine-formula/src/functions/logical/if/index.ts:25-73 | the corrected IF always returns a well-formed value object |
| `IfFindings.IntendedPropagatesConditionError` | packages/engine-formula/src/functions/logical/if/index.ts:30-39 | corrected: an error condition, bare or in a 1 by 1 array, is the result, ahead of an error true-branch |
| `IfFindings.IntendedPropagatesErrorCells` | packages/engine-formula/src/functions/logical/if/index.ts:82-90 | corrected: a result cell whose aligned condition cell is an error is that error |
| `IfFindings.IntendedAgreesWithoutConditionErrors` | packages/engine-formula/src/functions/logical/if/index.ts:25-103 | when the condition holds no error, and the condition fill is no error wherever broadcasting uses it, the corrected IF equals the source's on every input |

## Left out

- `ArrayObjects.Expand`: the source of `expandArrayValueObject` is not part of this model. It may replicate a 1 by 1, single-row or single-column array over the grid instead of padding it with the fill. The model pads. The in-bounds cells and the scalar case are the same either way. The padding is an assumption: IF({TRUE, FALSE; FALSE, TRUE}, 100, {200}) is {100, #N/A; #N/A, 100} under it (`IfScenarios.SquareConditionExample`), and would be {100, 200; 200, 100} if a 1 by 1 array were replicated.
- `ValueObjects.IsError`: assumes `isError()` is false for an array value object, whatever its cells hold. `ArrayValueObject` is not part of this model. The first finding rests on this.
- `ValueObjects.Truthy`: assumes `getValue()` of a null cell is falsy. `NullValueObject` is not part of this model.
- `ArrayObjects.Map`: the source of `ArrayValueObject.map` is not part of this model. Its contract is assumed from its use at line 63. The second finding rests on this: `map` is assumed to pass every cell, error cells included, to the callback.
- The fill `expandArrayValueObject` uses when none is passed is not visible. It is the `Host.conditionFill` parameter.
- What `getValue()` returns for an error marker is not visible. Its truthiness is the `Host.errorIsTruthy` parameter.
- Numbers are integers. Floating point and the truthiness of `NaN` are not modelled.
- The literal tokens of the error kinds (`#N/A` and the rest) are not modelled. The error-type definitions are not part of this model.
- Object identity is not modelled. Value objects are immutable values here, so "returned unchanged" is equality, and `Expand` returning its argument is `ExpandKeepsMatchingArray`.
- A JavaScript `null` passed explicitly as the false-branch is not modelled. With a non-array condition, line 42 returns the true-branch if the condition is truthy and that `null` itself if it is falsy. With an array condition the source would dereference it at line 49. An omitted false-branch is the default parameter.
- The `BaseFunction` registry and dispatch that call `calculate` are not part of this model.
- The other files of the repository (the sheets re-export barrel, the filter controller test, the sheet bar UI, the UI part factories) are outside this core.

## Findings

| source | as written | input that shows it | evidently intended | confidence | as-written member | corrected member |
|---|---|---|---|---|---|---|
| packages/engine-formula/src/functions/logical/if/index.ts:30-42 | the error check runs before a 1 by 1 condition is unwrapped, so an error held in it selects a branch by the error's truthiness | IF({#N/A}, 1, 2) gives 1 or 2 | an unwrapped error condition is the result, ahead of an error true-branch | medium, not executed | `IfFindings.SingletonErrorConditionIsDropped` | `IfFindings.IntendedPropagatesConditionError` |
| packages/engine-formula/src/functions/logical/if/index.ts:63-90 | the cell rule checks a condition cell only for null, so an error cell selects a branch (assuming `map` passes error cells to the callback, see `ArrayObjects.Map` under "## Left out") | the first cell of IF({#N/A, TRUE}, 1, 2) is 1 or 2 | a result cell whose condition cell is an error is that error | medium, not executed | `IfFindings.ArrayErrorCellIsDropped` | `IfFindings.IntendedPropagatesErrorCells` |

The laws in `IfLaws` are stated for `Calculate`, the behaviour as written.
`IfFindings.CalculateIntended` is the corrected definition.
`IfFindings.IntendedAgreesWithoutConditionErrors` proves it equals `Calculate`
whenever the condition holds no error (and the condition fill is no error wherever padding uses it), so every law in `IfLaws` carries over
to it on those inputs.
