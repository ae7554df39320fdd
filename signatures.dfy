/**
 * Method signatures as the VTK method parser reports them, and the
 * wrapper generator's classification of their argument and return types
 * (`_find_type`, `_find_arg_type`, `_find_return_type`, `_find_sig_type`)
 * together with the simple-getter test of `_gen_get_methods`.
 *
 * The generator classifies a signature by searching the text of its
 * Python `repr` for the words "vtk", "Array", "vtkPoints" and "vtkIdList".
 * The model builds that text and proves that the search sees the type
 * names only: the quotes, brackets, commas and `None` of the `repr` never
 * create or hide a match.
 */
module Signatures {
  import opened Wrappers
  import opened PyStrings

  /** The Python values a signature is made of. */
  datatype Py = PyStr(s: string) | PyNone | PyList(items: seq<Py>) | PyTuple(items: seq<Py>)

  /** One argument or return type: a type name, or a list of names for an array argument such as `int position[2]`. */
  datatype Tag = Scalar(name: string) | Vector(names: seq<string>)

  /** One overload `(returns, args)`; `args` is `None` when the overload takes no argument. */
  datatype Overload = Overload(rets: Option<seq<Tag>>, args: Option<seq<Tag>>)

  /** All overloads of one VTK method. */
  type Signature = seq<Overload>

  /** How the generated wrapper treats a value: as a basic Python value, a wrapped VTK object, or a VTK array. */
  datatype Kind = Basic | Vtk | ArrayKind

  // ---------------------------------------------------------------------
  // repr
  // ---------------------------------------------------------------------

  /** `", ".join(parts)`. */
  function Join(parts: seq<string>): string
  {
    if |parts| == 0 then ""
    else if |parts| == 1 then parts[0]
    else parts[0] + ", " + Join(parts[1..])
  }

  /** `repr(v)` for values whose strings need no escaping. */
  function Repr(v: Py): string
  {
    match v
    case PyStr(s) => "'" + s + "'"
    case PyNone => "None"
    case PyList(items) => "[" + Join(seq(|items|, i requires 0 <= i < |items| => Repr(items[i]))) + "]"
    case PyTuple(items) =>
      if |items| == 1 then "(" + Repr(items[0]) + ",)"
      else "(" + Join(seq(|items|, i requires 0 <= i < |items| => Repr(items[i]))) + ")"
  }

  /** Some string inside `v` contains `p`: the reference reading of a search through `repr(v)`. */
  predicate LeafContains(v: Py, p: string)
  {
    match v
    case PyStr(s) => Contains(s, p)
    case PyNone => false
    case PyList(items) => exists i :: 0 <= i < |items| && LeafContains(items[i], p)
    case PyTuple(items) => exists i :: 0 <= i < |items| && LeafContains(items[i], p)
  }

  /** A word occurs in a comma-joined list exactly when it occurs in one of the parts. */
  lemma {:induction false} JoinContains(parts: seq<string>, p: string)
    requires IsWord(p)
    ensures Contains(Join(parts), p) <==> exists i :: 0 <= i < |parts| && Contains(parts[i], p)
    decreases |parts|
  {
    if |parts| == 0 {
      NoLettersNoWord("", p);
    } else if |parts| >= 2 {
      var rest := Join(parts[1..]);
      assert Join(parts) == parts[0] + (", " + rest);
      ContainsSplit(parts[0], ", " + rest, p);
      ContainsAfterPunctuation(", ", rest, p);
      JoinContains(parts[1..], p);
      if exists i :: 1 <= i < |parts| && Contains(parts[i], p) {
        var i :| 1 <= i < |parts| && Contains(parts[i], p);
        assert Contains(parts[1..][i - 1], p);
      }
      if exists i :: 0 <= i < |parts[1..]| && Contains(parts[1..][i], p) {
        var i :| 0 <= i < |parts[1..]| && Contains(parts[1..][i], p);
        assert Contains(parts[i + 1], p);
      }
    }
  }

  /** A word between two letter-free strings occurs in the whole exactly when it occurs in the middle. */
  lemma Enclosed(open: string, mid: string, close: string, p: string)
    requires IsWord(p) && NoLetters(open) && NoLetters(close)
    requires close != []
    ensures Contains(open + mid + close, p) <==> Contains(mid, p)
  {
    assert open + mid + close == open + (mid + close);
    ContainsAfterPunctuation(open, mid + close, p);
    ContainsSplit(mid, close, p);
    NoLettersNoWord(close, p);
  }

  /**
   * Searching `repr(v)` for a word that does not occur in "None" finds it
   * exactly when one of the strings inside `v` contains it.
   */
  lemma {:induction false} ReprContains(v: Py, p: string)
    requires IsWord(p) && !Contains("None", p)
    ensures Contains(Repr(v), p) <==> LeafContains(v, p)
    decreases v
  {
    match v
    case PyStr(s) =>
      Enclosed("'", s, "'", p);
    case PyNone =>
    case PyList(items) =>
      var parts := seq(|items|, i requires 0 <= i < |items| => Repr(items[i]));
      Enclosed("[", Join(parts), "]", p);
      JoinContains(parts, p);
      forall i | 0 <= i < |items|
        ensures Contains(parts[i], p) <==> LeafContains(items[i], p)
      {
        ReprContains(items[i], p);
      }
    case PyTuple(items) =>
      var parts := seq(|items|, i requires 0 <= i < |items| => Repr(items[i]));
      if |items| == 1 {
        Enclosed("(", Repr(items[0]), ",)", p);
        ReprContains(items[0], p);
      } else {
        Enclosed("(", Join(parts), ")", p);
        JoinContains(parts, p);
        forall i | 0 <= i < |items|
          ensures Contains(parts[i], p) <==> LeafContains(items[i], p)
        {
          ReprContains(items[i], p);
        }
      }
  }

  // ---------------------------------------------------------------------
  // _find_type
  // ---------------------------------------------------------------------

  /** The search of `_find_type` over a text: "vtk" decides VTK, then any of the array markers decides array. */
  function KindOfText(s: string): Kind
  {
    if Contains(s, "vtk") then
      if Contains(s, "Array") || Contains(s, "vtkPoints") || Contains(s, "vtkIdList") then ArrayKind
      else Vtk
    else Basic
  }

  /**
   * `_find_type(val)`: classify a value by the text of its `repr`. The
   * result depends on the type names inside the value only.
   */
  function FindType(v: Py): (r: Kind)
    ensures r == LeafKind(v)
  {
    ReprKindByNames(v);
    KindOfText(Repr(v))
  }

  /** The same classification read off the type names inside the value, without any `repr`. */
  function LeafKind(v: Py): Kind
  {
    if LeafContains(v, "vtk") then
      if LeafContains(v, "Array") || LeafContains(v, "vtkPoints") || LeafContains(v, "vtkIdList") then ArrayKind
      else Vtk
    else Basic
  }

  /** The search words are words, and none of them occurs in "None". */
  lemma SearchWords()
    ensures IsWord("vtk") && !Contains("None", "vtk")
    ensures IsWord("Array") && !Contains("None", "Array")
    ensures IsWord("vtkPoints") && !Contains("None", "vtkPoints")
    ensures IsWord("vtkIdList") && !Contains("None", "vtkIdList")
  {
    MissingCharNotContained("None", "vtk", 0);
    MissingCharNotContained("None", "Array", 0);
    MissingCharNotContained("None", "vtkPoints", 0);
    MissingCharNotContained("None", "vtkIdList", 0);
  }

  /** The search of `_find_type` depends on the type names only: the punctuation of `repr` never matters. */
  lemma ReprKindByNames(v: Py)
    ensures KindOfText(Repr(v)) == LeafKind(v)
  {
    SearchWords();
    ReprContains(v, "vtk");
    ReprContains(v, "Array");
    ReprContains(v, "vtkPoints");
    ReprContains(v, "vtkIdList");
  }

  /** A value whose names mention "vtkPoints" or "vtkIdList" is an array: those markers already contain "vtk". */
  lemma PointsAndIdListsAreArrays(s: string)
    requires Contains(s, "vtkPoints") || Contains(s, "vtkIdList")
    ensures KindOfText(s) == ArrayKind
  {
    if Contains(s, "vtkPoints") {
      ContainsPrefixOf(s, "vtkPoints", "vtk");
    } else {
      ContainsPrefixOf(s, "vtkIdList", "vtk");
    }
  }

  /** Without "vtk" nothing is an array, whatever else the names say. */
  lemma ArrayNeedsVtk(v: Py)
    ensures FindType(v) == ArrayKind ==> LeafContains(v, "vtk")
    ensures !LeafContains(v, "vtk") ==> FindType(v) == Basic
  {
  }

  /** A list or tuple of strings, as the generator's own `_find_type` test writes them. */
  function Strings(names: seq<string>): seq<Py>
  {
    seq(|names|, i requires 0 <= i < |names| => PyStr(names[i]))
  }

  /** A word occurs in a list or tuple of strings exactly when it occurs in one of the strings. */
  lemma StringsContain(names: seq<string>, p: string)
    ensures LeafContains(PyList(Strings(names)), p) <==> exists i :: 0 <= i < |names| && Contains(names[i], p)
    ensures LeafContains(PyTuple(Strings(names)), p) <==> exists i :: 0 <= i < |names| && Contains(names[i], p)
  {
    var items := Strings(names);
    assert forall i :: 0 <= i < |names| ==> LeafContains(items[i], p) == Contains(names[i], p);
  }

  /** A name that lacks one character of each array marker contains none of them. */
  lemma NoMarkers(m: string, a: nat, b: nat, c: nat)
    requires a < 5 && "Array"[a] !in m
    requires b < 9 && "vtkPoints"[b] !in m
    requires c < 9 && "vtkIdList"[c] !in m
    ensures !Contains(m, "Array") && !Contains(m, "vtkPoints") && !Contains(m, "vtkIdList")
  {
    MissingCharNotContained(m, "Array", a);
    MissingCharNotContained(m, "vtkPoints", b);
    MissingCharNotContained(m, "vtkIdList", c);
  }

  /** Test case `'int'`: basic. */
  lemma FindTypeIntExample()
    ensures FindType(PyStr("int")) == Basic
  {
    MissingCharNotContained("int", "vtk", 0);
  }

  /** A single VTK name that mentions no array marker is a VTK object. */
  lemma NameIsVtk(m: string)
    requires StartsWith(m, "vtk")
    requires !Contains(m, "Array") && !Contains(m, "vtkPoints") && !Contains(m, "vtkIdList")
    ensures FindType(PyStr(m)) == Vtk
  {
  }

  /** Names of which one starts with "vtk" and none mentions an array marker are VTK objects, as a list or as a tuple. */
  lemma NamesAreVtk(names: seq<string>, j: nat)
    requires j < |names| && StartsWith(names[j], "vtk")
    requires forall i :: 0 <= i < |names| ==>
      !Contains(names[i], "Array") && !Contains(names[i], "vtkPoints") && !Contains(names[i], "vtkIdList")
    ensures FindType(PyList(Strings(names))) == Vtk
    ensures FindType(PyTuple(Strings(names))) == Vtk
  {
    StringsContain(names, "vtk");
    StringsContain(names, "Array");
    StringsContain(names, "vtkPoints");
    StringsContain(names, "vtkIdList");
  }

  /** Test case `'vtkOpenGLVolumeMapper'`: a VTK object. */
  lemma FindTypeMapperExample()
    ensures FindType(PyStr("vtkOpenGLVolumeMapper")) == Vtk
  {
    assert StartsWith("vtkOpenGLVolumeMapper", "vtk");
    NoMarkers("vtkOpenGLVolumeMapper", 0, 3, 3);
    NameIsVtk("vtkOpenGLVolumeMapper");
  }

  /** Test case `('int', 'int', 'float', 'list')`: basic. */
  lemma FindTypeBasicTupleExample()
    ensures FindType(PyTuple(Strings(["int", "int", "float", "list"]))) == Basic
  {
    var names := ["int", "int", "float", "list"];
    StringsContain(names, "vtk");
    forall i | 0 <= i < |names|
      ensures !Contains(names[i], "vtk")
    {
      MissingCharNotContained(names[i], "vtk", 0);
    }
  }

  /** Test case `('int', 'vtkActor', 'vtkXMLReader')`: a VTK object. */
  lemma FindTypeActorTupleExample()
    ensures FindType(PyTuple(Strings(["int", "vtkActor", "vtkXMLReader"]))) == Vtk
  {
    var names := ["int", "vtkActor", "vtkXMLReader"];
    assert StartsWith(names[1], "vtk");
    forall i | 0 <= i < |names|
      ensures !Contains(names[i], "Array") && !Contains(names[i], "vtkPoints") && !Contains(names[i], "vtkIdList")
    {
      if i == 0 { NoMarkers(names[i], 0, 0, 0); } else { NoMarkers(names[i], 4, 3, 3); }
    }
    NamesAreVtk(names, 1);
  }

  /** Test case `['vtkImageActor', 'vtkExporter']`: a VTK object. */
  lemma FindTypeExporterListExample()
    ensures FindType(PyList(Strings(["vtkImageActor", "vtkExporter"]))) == Vtk
  {
    var names := ["vtkImageActor", "vtkExporter"];
    assert StartsWith(names[0], "vtk");
    forall i | 0 <= i < |names|
      ensures !Contains(names[i], "Array") && !Contains(names[i], "vtkPoints") && !Contains(names[i], "vtkIdList")
    {
      NoMarkers(names[i], 4, 3, 5);
    }
    NamesAreVtk(names, 0);
  }

  /** Test case `['int', 'vtkDataArray', 'vtkCellArray', 'vtkIdTypeArray']`: an array. */
  lemma FindTypeArrayListExample()
    ensures FindType(PyList(Strings(["int", "vtkDataArray", "vtkCellArray", "vtkIdTypeArray"]))) == ArrayKind
  {
    var names := ["int", "vtkDataArray", "vtkCellArray", "vtkIdTypeArray"];
    DataArrayMarkers(names[1]);
    NamesAreArray(names, 1);
  }

  /** A list of names is an array when one name mentions both "vtk" and "Array". */
  lemma NamesAreArray(names: seq<string>, j: nat)
    requires j < |names| && Contains(names[j], "vtk") && Contains(names[j], "Array")
    ensures FindType(PyList(Strings(names))) == ArrayKind
  {
    StringsContain(names, "vtk");
    StringsContain(names, "Array");
  }

  /** "vtkDataArray" mentions both "vtk" and "Array". */
  lemma DataArrayMarkers(s: string)
    requires s == "vtkDataArray"
    ensures Contains(s, "vtk") && Contains(s, "Array")
  {
    assert StartsWith(s, "vtk");
    assert OccursAt(s, "Array", 7);
    ContainsAt(s, "Array");
  }

  // ---------------------------------------------------------------------
  // Signatures
  // ---------------------------------------------------------------------

  /** A tag as the parser writes it: a string, or a list of strings. */
  function TagValue(t: Tag): Py
  {
    match t
    case Scalar(n) => PyStr(n)
    case Vector(ns) => PyList(seq(|ns|, i requires 0 <= i < |ns| => PyStr(ns[i])))
  }

  /** A tuple of tags, or `None`. */
  function TagsValue(tags: Option<seq<Tag>>): Py
  {
    match tags
    case None => PyNone
    case Some(ts) => PyTuple(seq(|ts|, i requires 0 <= i < |ts| => TagValue(ts[i])))
  }

  /** `[s[1] for s in sig]`. */
  function ArgsValue(sig: Signature): Py
  {
    PyList(seq(|sig|, i requires 0 <= i < |sig| => TagsValue(sig[i].args)))
  }

  /** `[s[0] for s in sig]`. */
  function RetsValue(sig: Signature): Py
  {
    PyList(seq(|sig|, i requires 0 <= i < |sig| => TagsValue(sig[i].rets)))
  }

  /** The only overload takes no argument. */
  predicate SingleWithoutArgs(sig: Signature)
  {
    |sig| == 1 && sig[0].args.None?
  }

  /**
   * `_find_arg_type(sig)`; `None` stands for "no arguments". It is absent
   * only for a method with one overload that takes nothing; otherwise it
   * is the classification of the argument type names.
   */
  function FindArgType(sig: Signature): (r: Option<Kind>)
    ensures r.None? <==> SingleWithoutArgs(sig)
    ensures r.Some? ==> r.value == LeafKind(ArgsValue(sig))
  {
    if SingleWithoutArgs(sig) then None else Some(FindType(ArgsValue(sig)))
  }

  /** `_find_return_type(sig)`: the classification of the return type names. */
  function FindReturnType(sig: Signature): (r: Kind)
    ensures r == LeafKind(RetsValue(sig))
  {
    FindType(RetsValue(sig))
  }

  /** `_find_sig_type(sig)`: the pair (return type, argument type), each read off the type names. */
  function FindSigType(sig: Signature): (r: (Kind, Option<Kind>))
    ensures r.0 == LeafKind(RetsValue(sig))
    ensures r.1.None? <==> SingleWithoutArgs(sig)
    ensures r.1.Some? ==> r.1.value == LeafKind(ArgsValue(sig))
  {
    (FindReturnType(sig), FindArgType(sig))
  }

  /**
   * Several overloads that all take no argument are classified as taking
   * basic arguments, not as taking none: only a single overload is
   * inspected for missing arguments.
   */
  lemma SeveralArgumentlessOverloadsAreBasic(sig: Signature)
    requires |sig| >= 2
    requires forall i :: 0 <= i < |sig| ==> sig[i].args.None?
    ensures FindArgType(sig) == Some(Basic)
  {
    assert !LeafContains(ArgsValue(sig), "vtk") by {
      forall i | 0 <= i < |sig|
        ensures !LeafContains(ArgsValue(sig).items[i], "vtk")
      {
        assert ArgsValue(sig).items[i] == PyNone;
      }
    }
  }

  /** One-overload-per-name signature values: `[(n0,), (n1,), ...]`. */
  function Singletons(names: seq<string>): Py
  {
    PyList(seq(|names|, i requires 0 <= i < |names| => PyTuple([PyStr(names[i])])))
  }

  /** A word occurs in a list of one-name tuples exactly when it occurs in one of the names. */
  lemma SingletonsContain(names: seq<string>, p: string)
    ensures LeafContains(Singletons(names), p) <==> exists i :: 0 <= i < |names| && Contains(names[i], p)
  {
    var items := Singletons(names).items;
    forall i | 0 <= i < |names|
      ensures LeafContains(items[i], p) == Contains(names[i], p)
    {
      assert items[i].items[0] == PyStr(names[i]);
    }
  }

  /** Names of which one starts with "vtk" and none mentions an array marker, each in its own tuple, are VTK objects. */
  lemma SingletonsAreVtk(names: seq<string>, j: nat)
    requires j < |names| && StartsWith(names[j], "vtk")
    requires forall i :: 0 <= i < |names| ==>
      !Contains(names[i], "Array") && !Contains(names[i], "vtkPoints") && !Contains(names[i], "vtkIdList")
    ensures FindType(Singletons(names)) == Vtk
  {
    SingletonsContain(names, "vtk");
    SingletonsContain(names, "Array");
    SingletonsContain(names, "vtkPoints");
    SingletonsContain(names, "vtkIdList");
    assert Contains(names[j], "vtk");
  }

  /** A signature whose every overload has one return tag and one argument tag. */
  lemma OneTagOverloads(sig: Signature, rets: seq<string>, args: seq<string>)
    requires |sig| == |rets| == |args|
    requires forall i :: 0 <= i < |sig| ==> sig[i] == Overload(Some([Scalar(rets[i])]), Some([Scalar(args[i])]))
    ensures RetsValue(sig) == Singletons(rets) && ArgsValue(sig) == Singletons(args)
  {
    assert forall i :: 0 <= i < |sig| ==> TagsValue(sig[i].rets) == PyTuple([PyStr(rets[i])]);
    assert forall i :: 0 <= i < |sig| ==> TagsValue(sig[i].args) == PyTuple([PyStr(args[i])]);
  }

  /** A signature of one-tag overloads is classified by its return names and its argument names. */
  lemma OneTagSigType(sig: Signature, rets: seq<string>, args: seq<string>)
    requires |sig| == |rets| == |args|
    requires forall i :: 0 <= i < |sig| ==> sig[i] == Overload(Some([Scalar(rets[i])]), Some([Scalar(args[i])]))
    ensures FindSigType(sig) == (FindType(Singletons(rets)), Some(FindType(Singletons(args))))
  {
    OneTagOverloads(sig, rets, args);
  }

  /** Two one-name overloads, the second a VTK class without array markers, are VTK objects. */
  lemma PairIsVtk(a: string, b: string)
    requires !Contains(a, "Array") && !Contains(a, "vtkPoints") && !Contains(a, "vtkIdList")
    requires !Contains(b, "Array") && !Contains(b, "vtkPoints") && !Contains(b, "vtkIdList")
    requires StartsWith(b, "vtk")
    ensures FindType(Singletons([a, b])) == Vtk
  {
    SingletonsAreVtk([a, b], 1);
  }

  /** The return names `int`, `vtkStructuredPoints` of the `_find_sig_type` test. */
  lemma SigTypeExampleReturns(basic: string, points: string)
    requires basic == "int" && points == "vtkStructuredPoints"
    ensures FindType(Singletons([basic, points])) == Vtk
  {
    IntHasNoMarkers(basic);
    StructuredPointsIsVtk(points);
    PairIsVtk(basic, points);
  }

  /** "int" mentions no array marker. */
  lemma IntHasNoMarkers(s: string)
    requires s == "int"
    ensures !Contains(s, "Array") && !Contains(s, "vtkPoints") && !Contains(s, "vtkIdList")
  {
    NoMarkers(s, 0, 0, 0);
  }

  /** "vtkStructuredPoints" starts with "vtk" and mentions no array marker. */
  lemma StructuredPointsIsVtk(s: string)
    requires s == "vtkStructuredPoints"
    ensures StartsWith(s, "vtk")
    ensures !Contains(s, "Array") && !Contains(s, "vtkPoints") && !Contains(s, "vtkIdList")
  {
    assert StartsWith(s, "vtk");
    NotVtkPoints(s);
    NoArrayNorIdList(s);
  }

  /** "vtkStructuredPoints" lacks the "y" of "Array" and the "I" of "vtkIdList". */
  lemma NoArrayNorIdList(s: string)
    requires s == "vtkStructuredPoints"
    ensures !Contains(s, "Array") && !Contains(s, "vtkIdList")
  {
    NoArray(s);
    NoIdList(s);
  }

  lemma NoArray(s: string)
    requires s == "vtkStructuredPoints"
    ensures !Contains(s, "Array")
  {
    MissingCharNotContained(s, "Array", 4);
  }

  lemma NoIdList(s: string)
    requires s == "vtkStructuredPoints"
    ensures !Contains(s, "vtkIdList")
  {
    MissingCharNotContained(s, "vtkIdList", 3);
  }

  /** The argument names `int`, `vtkFooClass` of the `_find_sig_type` test. */
  lemma SigTypeExampleArgs(basic: string, foo: string)
    requires basic == "int" && foo == "vtkFooClass"
    ensures FindType(Singletons([basic, foo])) == Vtk
  {
    IntHasNoMarkers(basic);
    FooClassIsVtk(foo);
    PairIsVtk(basic, foo);
  }

  /** "vtkFooClass" starts with "vtk" and mentions no array marker. */
  lemma FooClassIsVtk(s: string)
    requires s == "vtkFooClass"
    ensures StartsWith(s, "vtk")
    ensures !Contains(s, "Array") && !Contains(s, "vtkPoints") && !Contains(s, "vtkIdList")
  {
    assert StartsWith(s, "vtk");
    NoMarkers(s, 4, 3, 3);
  }

  /** The hand-written signature of the generator's `_find_sig_type` test: `[(['int'], ['int']), (['vtkStructuredPoints'], ['vtkFooClass'])]`. */
  lemma SigTypeExample()
    ensures FindSigType([Overload(Some([Scalar("int")]), Some([Scalar("int")])),
                         Overload(Some([Scalar("vtkStructuredPoints")]), Some([Scalar("vtkFooClass")]))])
            == (Vtk, Some(Vtk))
  {
    OneTagSigType([Overload(Some([Scalar("int")]), Some([Scalar("int")])),
                   Overload(Some([Scalar("vtkStructuredPoints")]), Some([Scalar("vtkFooClass")]))],
                  ["int", "vtkStructuredPoints"], ["int", "vtkFooClass"]);
    SigTypeExampleReturns("int", "vtkStructuredPoints");
    SigTypeExampleArgs("int", "vtkFooClass");
  }

  /** "vtkStructuredPoints" ends in "Points" but does not contain "vtkPoints". */
  lemma NotVtkPoints(s: string)
    requires s == "vtkStructuredPoints"
    ensures !Contains(s, "vtkPoints")
  {
    forall k | 0 <= k <= |s| - 9
      ensures !OccursAt(s, "vtkPoints", k)
    {
      if k == 0 {
        assert s[k..k + 9][3] == 'S';
      } else {
        assert s[k..k + 9][0] == s[k] != 'v';
      }
    }
    ContainsAt(s, "vtkPoints");
  }

  // ---------------------------------------------------------------------
  // The simple-getter test of _gen_get_methods
  // ---------------------------------------------------------------------

  /**
   * A getter is wrapped as a plain property when one of its overloads
   * takes no argument; the generator tests the single-overload case
   * directly and scans several overloads until the first such one.
   */
  method IsSimpleGetter(sig: Signature) returns (simple: bool)
    ensures simple <==> exists i :: 0 <= i < |sig| && sig[i].args.None?
  {
    simple := false;
    if |sig| == 1 && sig[0].args.None? {
      simple := true;
    } else if |sig| > 1 {
      var i := 0;
      while i < |sig|
        invariant 0 <= i <= |sig|
        invariant !simple
        invariant forall j :: 0 <= j < i ==> sig[j].args.Some?
      {
        if sig[i].args.None? {
          simple := true;
          break;
        }
        i := i + 1;
      }
    }
  }
}
