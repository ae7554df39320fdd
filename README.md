# TVTK wrapper generation and cell-array packing, in Dafny

This project models two parts of TVTK, the traits-based wrapper around the
VTK visualisation toolkit, and proves properties of them.

1. **The native array extension** (`array_ext`):
   - `c_set_id_type_array` packs a 2-D, possibly strided table of point ids
     into the flat cell layout of a `vtkIdTypeArray`: one block per row,
     holding the cell length `L` and then the row's `L` ids. It writes the
     output buffer in place, in two nested loops.
   - `set_id_type_array` checks both arrays in a fixed order before packing.
   - `c_empty_array` checks a dimension vector and computes how many bytes
     to allocate.
2. **The wrapper generator** (`wrapper_gen.py`), reduced to the decisions it
   takes on method-signature data:
   - the basic / vtk / array classification of signatures (`_find_type`
     and its three callers);
   - `patch_default`, `get_trait_type` and the fallback default table;
   - range widening and the simple-getter test;
   - `_reform_name` and the `help=` rewrite of `_write_trait`;
   - the bookkeeping at the end of `_gen_methods`. A class node stores its
     editable traits merged with its first parent's. The generated class
     then lists its updateable traits, the traits allowed to fail on
     update, the full trait-name list and the compact view's names.

Files:

- `wrappers.dfy`: `Option`, `Result` and `Outcome`.
- `array_ext.dfy`: module `ArrayExt`. It holds the packing method over
  `array<int>`, the `NumArray` class, the ordered checks and the byte-size
  loop.
- `py_strings.dfy`: module `PyStrings`. It holds Python's `find`,
  `startswith`, `endswith`, string order and `sorted` over a set of names.
- `signatures.dfy`: module `Signatures`. It holds signatures as Python
  values, their `repr`, the `_find_*` functions and the simple-getter
  method.
- `defaults.dfy`: module `Defaults`. It holds `get_trait_type`,
  `patch_default`, the fallback table and ranges.
- `names.dfy`: module `Names`. It holds `_reform_name`, the method-name
  keyword guard and the help rewrite.
- `trait_lists.dfy`: module `TraitLists`. It holds the trait dictionaries
  as objects updated in place, `_safe_remove`, the parent merge, the deep
  copy and the name lists.

Two things are passed in as parameters:

- The camel-case conversion `camel2enthought` is a function parameter
  `camel`, because it is defined outside the modelled files.
- The descriptor lookup of `c_empty_array` is a parameter: the element
  size, or `None` when no descriptor exists for the typecode.

## Model

| member | source | states |
|---|---|---|
| ArrayExt.ElementStride | enthought/tvtk/src/array_ext.c:239-242 | `strides[k] / sizeof(int)` converts the `int` byte stride to a 64-bit `size_t`, divides, and stores the quotient back into an `int`. The resulting element stride `s` satisfies `s*4 <= stride < s*4 + 4`, so it is the byte stride divided by 4 rounded down, and it is negative iff the byte stride is. |
| ArrayExt.Packed | enthought/tvtk/src/array_ext.c:245-265 | The packed layout of the first `rows` rows has exactly `rows*(L+1)` elements. |
| ArrayExt.PackedPrefix | enthought/tvtk/src/array_ext.c:245-265 | Packing more rows only appends. The layout of fewer rows is a prefix of the layout of more. |
| ArrayExt.PackedHeader | enthought/tvtk/src/array_ext.c:251-254 | After packing, `out[i*(L+1)] == L` for every row `i < dim0`. |
| ArrayExt.PackedBody | enthought/tvtk/src/array_ext.c:239-260 | After packing, `out[i*(L+1)+1+j]` is the id at buffer index `start + i*stride0 + j*stride1`, for every `i < dim0` and `j < L`, where `start` is the index of the table's first element. These are the entries of `Row(i)` in column order. |
| ArrayExt.PackedAt | enthought/tvtk/src/array_ext.c:245-260 | The row blocks tile `[0, dim0*(L+1))`. Each position `k` belongs to row `k / (L+1)`. It holds the count at offset 0, and column `offset-1` otherwise. |
| ArrayExt.BlockBefore | enthought/tvtk/src/array_ext.c:251-254 | An earlier row's block ends no later than a later row's block starts. |
| ArrayExt.BlocksDisjoint | enthought/tvtk/src/array_ext.c:251-260 | Two (row, offset) pairs that land on the same output position are equal, so the blocks are disjoint. |
| ArrayExt.PackRow | enthought/tvtk/src/array_ext.c:245-260 | One pass of the outer loop writes row `i`'s block at `outStart + i*L + i`: the count, then the row's ids, read from `idStart + i*stride0 + j*stride1`. Elements before the block and after it are left as they were. |
| ArrayExt.PackedAppendsRow | enthought/tvtk/src/array_ext.c:245-260 | If the output holds the untouched front and the first `i` blocks, writing row `i`'s block after them leaves it holding the front and the first `i+1` blocks. |
| ArrayExt.PackCells | enthought/tvtk/src/array_ext.c:211-277 | The nested loops leave the output up to `outStart + dim0*(L+1)` equal to its old front up to `outStart`, followed by the packed layout of the table read from `idStart`. Strides may be negative. Every later element is kept, and the id buffer is not modified. |
| ArrayExt.CheckSetIdType | enthought/tvtk/src/array_ext.c:385-498 | The assertion raised follows the check order. The id typecode is checked first, then the out typecode, then contiguity, then two dimensions, then size `== shape[0]*(shape[1]+1)`. Each error is stated as an iff over exactly the earlier checks passing. The size error carries the expected and given sizes. There is no error iff all checks pass. |
| ArrayExt.SetIdTypeArray | enthought/tvtk/src/array_ext.c:365-505 | Fails iff a check fails, with that check's error, and then leaves the output untouched. Otherwise the output's size elements from its first one hold the packed id table. The table is read from the id array's first element with `ElementStride` of its byte strides, so reversed and other negatively strided id arrays are handled. Output elements before and after are kept. |
| ArrayExt.ReversedRowsInBounds | enthought/tvtk/src/array_ext.c:364 | The id array need not be contiguous: `ids[::-1]` of a contiguous 2 by 3 table, with byte strides (-12, 4) and its first element at buffer index 3, gets element strides (-3, 1), and every id it addresses lies inside the six-element buffer. |
| ArrayExt.ProductOfNonZero | enthought/tvtk/src/array_ext.c:146-151 | The accumulated product of the non-zero dimensions is at least 1. |
| ArrayExt.NonZero | enthought/tvtk/src/array_ext.c:146-151 | The dimensions kept are non-zero. Every non-zero dimension is kept, as many times as it occurs in the input. |
| ArrayExt.ProductOfNonZeroSkipsZeros | enthought/tvtk/src/array_ext.c:146-151 | Skipping zeros: the accumulated product is the plain product of the non-zero dimensions. |
| ArrayExt.ProductOfNonZeroNoZeros | enthought/tvtk/src/array_ext.c:146-151 | With no zero dimension, the accumulated product is the element count. |
| ArrayExt.RoundUpToInt | enthought/tvtk/src/array_ext.c:159 | The rounded size is a multiple of `sizeof(int)`. It is strictly larger than the unrounded size, by at most `sizeof(int)`. |
| ArrayExt.EmptyArrayByteSize | enthought/tvtk/src/array_ext.c:71-159 | Raises "dimension array must be 1d" iff the rank is not 1. Then raises "no descriptor" iff there is none. Then raises "Negative dimensions" iff some dimension is negative. Otherwise the size is a multiple of `sizeof(int)`, strictly above `elsize *` the product of the non-zero dimensions, and at most `sizeof(int)` above it. |
| PyStrings.ContainsAt | tvtk/wrapper_gen.py:970-976 | `s.find(p) > -1` holds exactly when some window of `s` equals `p`. |
| PyStrings.MissingCharNotContained | tvtk/wrapper_gen.py:970-976 | A character of `p` that `s` lacks rules out finding `p`. |
| PyStrings.ContainsPrefixOf | tvtk/wrapper_gen.py:968-976 | Finding `p` also finds every prefix of `p`. |
| PyStrings.ContainsSplit | tvtk/wrapper_gen.py:969-976 | A word occurs in `a + b`, where `b` starts with punctuation, exactly when it occurs in `a` or in `b`. |
| PyStrings.SortedNames | tvtk/wrapper_gen.py:393-395 | `sorted(d.keys())` has each name of the set exactly once, and is strictly increasing in Python's string order. |
| PyStrings.BelowTotal | tvtk/wrapper_gen.py:393-395 | Python's string order is total and antisymmetric on distinct strings. |
| PyStrings.LeastExists | tvtk/wrapper_gen.py:393-395 | Every non-empty set of names has a least one. |
| Signatures.JoinContains | tvtk/wrapper_gen.py:969-976 | A word is found in a comma-joined `repr` list exactly when it is found in one of the parts. |
| Signatures.ReprContains | tvtk/wrapper_gen.py:969-976 | Searching `repr(v)` for a word absent from "None" finds it exactly when a string inside `v` contains it. Quotes, brackets and commas never create or hide a match. |
| Signatures.FindType | tvtk/wrapper_gen.py:961-976 | `_find_type` depends only on the names inside the value (proved by `ReprKindByNames`). It is 'basic' iff no name contains "vtk". It is 'array' iff one name contains "vtk" and one contains "Array", "vtkPoints" or "vtkIdList". Otherwise it is 'vtk'. |
| Signatures.PointsAndIdListsAreArrays | tvtk/wrapper_gen.py:968-976 | A text mentioning "vtkPoints" or "vtkIdList" is always 'array'. |
| Signatures.ArrayNeedsVtk | tvtk/wrapper_gen.py:969-976 | Without "vtk" a value is 'basic', even if it mentions "Array". |
| Signatures.StringsContain | tvtk/wrapper_gen.py:969-976 | A word is found in a list or tuple of strings exactly when one string contains it. |
| Signatures.FindTypeIntExample | enthought/tvtk/tests/test_wrapper_gen.py:25-34 | `'int'` is 'basic'. |
| Signatures.FindTypeMapperExample | enthought/tvtk/tests/test_wrapper_gen.py:25-34 | `'vtkOpenGLVolumeMapper'` is 'vtk'. |
| Signatures.FindTypeBasicTupleExample | enthought/tvtk/tests/test_wrapper_gen.py:25-34 | `('int', 'int', 'float', 'list')` is 'basic'. |
| Signatures.FindTypeActorTupleExample | enthought/tvtk/tests/test_wrapper_gen.py:25-34 | `('int', 'vtkActor', 'vtkXMLReader')` is 'vtk'. |
| Signatures.FindTypeExporterListExample | enthought/tvtk/tests/test_wrapper_gen.py:25-34 | `['vtkImageActor', 'vtkExporter']` is 'vtk'. |
| Signatures.FindTypeArrayListExample | enthought/tvtk/tests/test_wrapper_gen.py:25-34 | `['int', 'vtkDataArray', 'vtkCellArray', 'vtkIdTypeArray']` is 'array'. |
| Signatures.NamesAreArray | tvtk/wrapper_gen.py:969-976 | A list of names is 'array' when one name mentions both "vtk" and "Array". |
| Signatures.NamesAreVtk | tvtk/wrapper_gen.py:969-976 | Names of which one starts with "vtk" and none mentions an array marker are classified 'vtk', as a list and as a tuple. |
| Signatures.FindArgType | tvtk/wrapper_gen.py:978-989 | `_find_arg_type` is None iff there is exactly one overload and it takes no argument. Otherwise it is the classification of the argument names. |
| Signatures.SeveralArgumentlessOverloadsAreBasic | tvtk/wrapper_gen.py:978-989 | Several overloads that all take no argument are classified 'basic', not None. |
| Signatures.FindReturnType | tvtk/wrapper_gen.py:991-996 | `_find_return_type` is the classification of the return names. |
| Signatures.FindSigType | tvtk/wrapper_gen.py:998-1003 | The return half of `_find_sig_type` is the class of the return names. The argument half is None iff there is a single overload without arguments, and otherwise the class of the argument names. |
| Signatures.OneTagSigType | tvtk/wrapper_gen.py:998-1003 | For any number of overloads that each have one return tag and one argument tag, `_find_sig_type` is the pair of the return names' class and the argument names' class. |
| Signatures.SingletonsContain | tvtk/wrapper_gen.py:969-976 | A word is found in a list of one-name tuples iff one of the names contains it. |
| Signatures.SingletonsAreVtk | tvtk/wrapper_gen.py:969-976 | One-name tuples, one of them a VTK class without array markers, are classified 'vtk'. |
| Signatures.SigTypeExample | enthought/tvtk/tests/test_wrapper_gen.py:57-59 | `[(['int'], ['int']), (['vtkStructuredPoints'], ['vtkFooClass'])]` gives `('vtk', 'vtk')`. |
| Signatures.NotVtkPoints | enthought/tvtk/tests/test_wrapper_gen.py:57-59 | "vtkStructuredPoints" does not contain "vtkPoints", so it is not an array. |
| Signatures.IsSimpleGetter | tvtk/wrapper_gen.py:907-920 | A getter becomes a property iff some overload takes no argument. With no overload it is a method. |
| Defaults.GetTraitType | tvtk/wrapper_gen.py:58-82 | `get_trait_type` raises TypeError iff the value is None or an object. A tuple or list gives 'traits.Array'. |
| Defaults.TraitTypeSeparatesKinds | tvtk/wrapper_gen.py:58-82 | Values with the same trait type are the same kind of value; only tuples and lists share one. |
| Defaults.Flatten | tvtk/wrapper_gen.py:131-139 | An argument list without array parts is its own format: the names, in order. |
| Defaults.AsWrittenAgreesUnlessMixed | tvtk/wrapper_gen.py:131-139 | The format as written equals the spliced format unless the argument list mixes names and arrays. |
| Defaults.ChainFlattenWithoutScalars | tvtk/wrapper_gen.py:136 | Chaining a list of arrays splices them. |
| Defaults.ChainedScalarLeavesChar | tvtk/wrapper_gen.py:136 | Chaining a list that holds a name leaves that name's first character as its own entry, since iterating a `str` yields its one-character strings (`Chars`). |
| Defaults.MixedArgumentsNeverUniformAsWritten | tvtk/wrapper_gen.py:131-157 | As written, an argument list that mixes an array with a name never counts as all "int", all "float" or all "string". |
| Defaults.ArgFormatsAgreeUnlessMixed | tvtk/wrapper_gen.py:131-139 | When no overload mixes names and arrays in its arguments, the formats as written are the spliced formats. |
| Defaults.PatchDefaultAsWritten | tvtk/wrapper_gen.py:100-157 | `patch_default` as written gives the same default as the corrected splice whenever no overload mixes names and arrays. |
| Defaults.ArgFormats | tvtk/wrapper_gen.py:131-139 | There is at most one argument format per overload. |
| Defaults.ArgFormatsMembers | tvtk/wrapper_gen.py:131-139 | Every overload with arguments contributes its format, and every format comes from such an overload. |
| Defaults.ArgFormatsConcat | tvtk/wrapper_gen.py:131-139 | The formats of two runs of overloads are those of the first run followed by those of the second. So the formats keep the overloads' order, and an overload without arguments contributes nothing. |
| Defaults.PatchDefault | tvtk/wrapper_gen.py:100-157 | The two loops return the zeros of the first uniform format, else `default`. The formats are spliced as intended (`ArgFormat`), not as written; this is the corrected half of the Findings row, and `PatchDefaultAsWritten` is the code as written. |
| Defaults.PatchedDefaultFirstMatch | tvtk/wrapper_gen.py:141-155 | The first format that is all "int", all "float" or all "string" decides. It gives `0`, `0.` or `"None"` for one argument, and a tuple of that zero of the format's length otherwise. |
| Defaults.PatchedDefaultNoMatch | tvtk/wrapper_gen.py:141-157 | Without a uniform format, `default` is returned unchanged. |
| Defaults.ZeroOfTyped | tvtk/wrapper_gen.py:141-155 | A patched zero has a trait type. It is a tuple iff the arity is not 1, with that many elements, and it is never a `_p_void` string. |
| Defaults.PatchedDefault | tvtk/wrapper_gen.py:141-157 | `patch_default` returns the given default, or a value that is not `_p_void` and has a trait type. So `get_trait_type` never raises in the `_p_void` branch at 776-797. |
| Defaults.PatchDefaultPositionExample | tvtk/wrapper_gen.py:117-124 | `SetPosition(int, int)` turns `'_000000000351c458_p_void'` into `(0, 0)`. |
| Defaults.PatchDefaultPositionArrayExample | tvtk/wrapper_gen.py:126-139 | `SetPosition(int position[2])` gives the same `(0, 0)`. |
| Defaults.MixedArgumentsExample | tvtk/wrapper_gen.py:129-139 | For `(["float", "float"], "float")` the code as written keeps the `_p_void` default. The corrected splice gives `(0., 0., 0.)`. |
| Defaults.FallbackDefault | tvtk/wrapper_gen.py:672-684 | The fallback default has a trait type iff the first return type is "int", "float" or "string". These give `0`, `0.0` and `''`; anything else gives None. It is never `_p_void`. |
| Defaults.FallbackMeta | tvtk/wrapper_gen.py:664-688 | A default is guessed iff the first overload takes no argument. The guess has a trait type iff the first overload's first return type is "int", "float" or "string", and is None otherwise. It is never `_p_void`. |
| Defaults.WidenedRange | tvtk/wrapper_gen.py:856-859 | The range never narrows, and each end moves by less than 2. An end that moves lands on the default. |
| Defaults.WideningKeepsValidRange | tvtk/wrapper_gen.py:856-859 | A default inside the range leaves it unchanged. |
| Defaults.WideningIdempotent | tvtk/wrapper_gen.py:856-859 | Widening twice is widening once. |
| Defaults.WidenedRangeHolds | tvtk/wrapper_gen.py:856-862 | After widening, the default is in range iff it was less than 2 outside the original range. |
| Defaults.RangeTraitFor | tvtk/wrapper_gen.py:856-869 | The two-default form of the trait is written iff the default is 2 or more outside the range. The written range contains the original, and the default is kept. |
| Names.ReformName | tvtk/wrapper_gen.py:934-950 | "TeX" becomes "tex". An all-upper-case method name is kept as it is. A reformed name is never a Python 3 keyword. |
| Names.ReformNameConverts | tvtk/wrapper_gen.py:941-950 | Apart from "TeX" and all-upper method names, the result is the camel-case conversion, with `_` appended iff that conversion is a keyword. |
| Names.KeywordShapes | tvtk/wrapper_gen.py:941-950 | No keyword is all upper case, and none ends in `_`. |
| Names.MethodName | tvtk/wrapper_gen.py:1245-1247 | The second keyword guard in `_write_tvtk_method` never fires: the method name is the reformed name, and it is not a keyword. |
| Names.HelpSuffixBalances | tvtk/wrapper_gen.py:1360-1396 | The rewrite leaves exactly one parenthesis open. The `)` written after the help text restores the definition's balance. |
| Names.HelpSuffix | tvtk/wrapper_gen.py:1360-1364 | The rewritten definition ends in `help=\` and not in `)`. It starts with the definition, minus its final `)` when it had one. |
| TraitLists.RemovedIdempotent | tvtk/wrapper_gen.py:375-380 | Removing the same keys twice (`Removed`) is removing them once. Unlisted entries are kept. |
| TraitLists.TraitDict.Update | tvtk/wrapper_gen.py:339-340 | `dict.update` leaves the old entries overridden by the new ones. |
| TraitLists.TraitDict.SafeRemove | tvtk/wrapper_gen.py:375-380 | The loop leaves `Removed(old, keys)`: it deletes the listed keys present in the dictionary, ignores the missing ones, and keeps every other entry with its value. |
| TraitLists.NodeData.MergeParent | tvtk/wrapper_gen.py:337-340 | Each of the node's dictionaries and its allowed-failure set is updated with the parent's. |
| TraitLists.NodeData.DeepCopy | tvtk/wrapper_gen.py:366 | The copy has fresh dictionaries with the same entries. |
| TraitLists.UpdateableTraits | tvtk/wrapper_gen.py:346-348 | The loop computes the updates of toggle, state and get/set in turn. |
| TraitLists.UpdateableUnion | tvtk/wrapper_gen.py:346-348 | `_updateable_traits_` has exactly the toggle, state and get/set names. A get/set entry wins over a state entry, which wins over a toggle entry. |
| TraitLists.ParentOverrides | tvtk/wrapper_gen.py:337-340 | After the merge, the parent's entry wins on a shared name, and the node keeps the names the parent lacks. |
| TraitLists.WriteLists | tvtk/wrapper_gen.py:346-438 | The lists are the union, the allowed failures, the full list and the three view lists of the node's data. The method modifies nothing, so the stored data is unchanged by the removals. |
| TraitLists.MergedData | tvtk/wrapper_gen.py:335-341 | The stored data is the node's own traits, with the first parent's merged in when it inherits. |
| TraitLists.GenTraitLists | tvtk/wrapper_gen.py:335-438 | The node stores fresh data. It merges in the parent's data when the node is not a root and its first parent is not `object`, and the lists are those of the stored data. |
| TraitLists.FullNamesContents | tvtk/wrapper_gen.py:383-397 | `_full_traitnames_list_` is exactly the toggle, state and get/set names, with 'reference_count' and 'progress' left out. Its length is the sum of the three dictionaries' name counts, so a name in two dictionaries appears twice: the list is not deduplicated. |
| TraitLists.FullNamesRuns | tvtk/wrapper_gen.py:393-397 | The full list is three strictly sorted runs: toggles, then states, then get/set traits. |
| TraitLists.ViewWithinFull | tvtk/wrapper_gen.py:432-438 | Every name in the compact view is in the full list. The view leaves out 'progress_text' and the six hidden toggles. |

## Left out

- The Pyrex runtime of `array_ext.c` is not modelled: argument parsing, reference counting, tracebacks, module initialisation and `PyArray_FromDimsAndDataAndDescr`. `malloc` and its `MemoryError` are left out too.
- ArrayExt.EmptyArrayByteSize: the descriptor lookup is a parameter. The byte count is an unbounded integer, so C `int` overflow of `sd` is not modelled.
- ArrayExt.ElementStride: fixes `size_t` at 64 bits. With a 32-bit `size_t`, a negative byte stride converts to a large positive element stride. The pointer arithmetic then relies on signed overflow and out-of-range pointers, which are undefined behaviour in C and not modelled.
- ArrayExt.PackCells: ids are mathematical integers. The mismatch between `int` and the 'l' element width is platform-specific.
- ArrayExt.PackCells, ArrayExt.SetIdTypeArray: the id and output buffers are required to be distinct arrays. Aliased buffers are not modelled.
- Signatures.Repr: models `repr` for names that need no escaping. Names with quotes or backslashes are not modelled.
- Signatures.FindType: only values built from strings, None, lists and tuples are classified. These are the shapes the VTK method parser produces.
- Extracting signatures from VTK (`vtk_parser.get_method_signature`) is not part of this model. Signatures are inputs.
- Defaults.GetTraitType: follows Python 3. The Python 2 `long` and `unicode` branches are left out.
- `get_array_meta` is not modelled. It formats text from `type.__name__`.
- Defaults.WidenedRange: uses real numbers, not IEEE floating point.
- Defaults.FallbackMeta: requires a non-empty signature, and a return type on an argument-free first overload. On an empty signature or a missing return type the source raises an IndexError or TypeError, which is not modelled.
- TraitLists.GenTraitLists: requires the class-tree invariant `ClassNode.Placed` (a node below the root has a parent). On a tree without it the source raises an IndexError, which is not modelled.
- `_gen_get_set_methods`: the per-name branch chain is not modelled. This covers Output, Source, Input, file names, colours and the class-specific cases. The text of each trait definition is not modelled either.
- Names.ReformName: follows Python 3's keyword set. Under Python 2, which the generator also supports, `print` and `exec` are keywords and get a `_`, while `True`, `False`, `None`, `nonlocal`, `async` and `await` do not.
- Names.ReformName: `camel2enthought` is a function parameter, because `common.py` is not part of this model. `isupper` is restricted to ASCII letters.
- TraitLists.WriteLists: the text layout (`textwrap.fill`, `repr` of the tuples, the indenter) is not modelled. So is the order of `_allow_update_failure_`, which Python takes from iterating a set.
- `_gen_state_methods`, `_gen_toggle_methods` and the `_write_*` code templates are not modelled. They produce source text, not decisions.
- `enthought/mayavi/components/actor.py` is not modelled. It is change-handler glue over frameworks outside this model.
- The docstring of `_find_arg_type` says None is returned when all overloads lack arguments. The code tests only the single-overload case. The model follows the code; see `Signatures.SeveralArgumentlessOverloadsAreBasic`.

## Findings

| source | as written | input that shows it | evidently intended | confidence | as-written member | corrected member |
|---|---|---|---|---|---|---|
| tvtk/wrapper_gen.py:135-136 | When any argument part is a list, `tuple(chain.from_iterable(sig[1]))` also iterates the plain string parts, splitting each type name into one-character strings. | A setter with arguments `(["float", "float"], "float")` and a `_p_void` default: the format becomes `("float", "float", "f", "l", "o", "a", "t")`, no uniform test passes, and the `_p_void` default is kept. | Splice only the list parts, giving the format `("float", "float", "float")` and the default `(0., 0., 0.)`. | not executed | Defaults.MixedArgumentsNeverUniformAsWritten | Defaults.PatchDefault |
