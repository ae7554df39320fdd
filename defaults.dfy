/**
 * How the wrapper generator chooses the trait type and default of a
 * get/set attribute: `get_trait_type`, `patch_default` (guessing a
 * default from the setter's signature when the getter reports an
 * uninitialised `..._p_void` pointer), the fallback table used when no
 * default was recorded, and the widening of a valid range towards a
 * default that lies just outside it.
 */
module Defaults {
  import opened Wrappers
  import opened PyStrings
  import opened Signatures

  /** The Python values a VTK getter can report. */
  datatype Value =
    | IntV(i: int)
    | FloatV(r: real)
    | StrV(s: string)
    | BoolV(b: bool)
    | TupleV(elems: seq<Value>)
    | ListV(elems: seq<Value>)
    | NoneV
    | ObjectV(className: string)

  /** The `TypeError` raised for a value of no known trait type. */
  datatype TypeError = CouldNotUnderstandType

  // ---------------------------------------------------------------------
  // get_trait_type
  // ---------------------------------------------------------------------

  /**
   * `get_trait_type(value)` under Python 3: the trait class for the exact
   * type of the value; any sequence becomes an array trait.
   */
  function GetTraitType(v: Value): (r: Result<string, TypeError>)
    ensures r.Success? <==> !v.NoneV? && !v.ObjectV?
    ensures (v.TupleV? || v.ListV?) ==> r == Success("traits.Array")
  {
    match v
    case IntV(_) => Success("traits.Int")
    case FloatV(_) => Success("traits.Float")
    case StrV(_) => Success("traits.String")
    case TupleV(_) => Success("traits.Array")
    case ListV(_) => Success("traits.Array")
    case BoolV(_) => Success("traits.Bool")
    case NoneV => Failure(CouldNotUnderstandType)
    case ObjectV(_) => Failure(CouldNotUnderstandType)
  }

  /** Distinct kinds of value get distinct trait types; only sequences share one. */
  lemma TraitTypeSeparatesKinds(v: Value, w: Value)
    requires GetTraitType(v).Success? && GetTraitType(w).Success?
    requires GetTraitType(v) == GetTraitType(w)
    ensures v.IntV? == w.IntV? && v.FloatV? == w.FloatV? && v.StrV? == w.StrV? && v.BoolV? == w.BoolV?
    ensures (v.TupleV? || v.ListV?) == (w.TupleV? || w.ListV?)
  {
  }

  /** The getter reported an uninitialised pointer: a string ending in `_p_void`. */
  predicate IsPVoid(v: Value)
  {
    v.StrV? && EndsWith(v.s, "_p_void")
  }

  // ---------------------------------------------------------------------
  // patch_default
  // ---------------------------------------------------------------------

  /** The zero a uniform argument list stands for. */
  datatype ZeroKind = IntZero | FloatZero | StrZero

  /** Which of the three `all(type_ == ...)` tests an argument format passes first, if any. */
  function Uniform(fmt: seq<string>): Option<ZeroKind>
  {
    if forall t :: t in fmt ==> t == "int" then Some(IntZero)
    else if forall t :: t in fmt ==> t == "float" then Some(FloatZero)
    else if forall t :: t in fmt ==> t == "string" then Some(StrZero)
    else None
  }

  /** The single zero of a kind: `0`, `0.` or the string `"None"`. */
  function Zero(k: ZeroKind): Value
  {
    match k
    case IntZero => IntV(0)
    case FloatZero => FloatV(0.0)
    case StrZero => StrV("None")
  }

  /** The default for `n` arguments of one kind: the zero itself for one argument, a tuple of `n` zeros otherwise. */
  function ZeroOf(k: ZeroKind, n: nat): Value
  {
    if n == 1 then Zero(k) else TupleV(seq(n, _ => Zero(k)))
  }

  /** The argument has an array part. */
  predicate HasVector(tags: seq<Tag>)
  {
    exists i :: 0 <= i < |tags| && tags[i].Vector?
  }

  /** The argument has a single-name part. */
  predicate HasScalar(tags: seq<Tag>)
  {
    exists i :: 0 <= i < |tags| && tags[i].Scalar?
  }

  /** The type names of an argument list, array parts spliced in: `("int", ["float", "float"])` gives `int, float, float`. */
  function Flatten(tags: seq<Tag>): (r: seq<string>)
    ensures !HasVector(tags) ==> |r| == |tags| && forall i :: 0 <= i < |tags| ==> r[i] == tags[i].name
  {
    if |tags| == 0 then []
    else
      (match tags[0] case Scalar(n) => [n] case Vector(ns) => ns) + Flatten(tags[1..])
  }

  /** The argument format `patch_default` tests: the spliced names. */
  function ArgFormat(tags: seq<Tag>): seq<string>
  {
    Flatten(tags)
  }

  /** The one-character strings of a name, as iterating over a Python `str` yields them. */
  function Chars(n: string): (r: seq<string>)
    ensures |r| == |n| && forall i :: 0 <= i < |n| ==> r[i] == [n[i]]
  {
    seq(|n|, i requires 0 <= i < |n| => [n[i]])
  }

  /** `chain.from_iterable(tags)`: every part is iterated, so a single name falls apart into characters. */
  function ChainFlatten(tags: seq<Tag>): seq<string>
  {
    if |tags| == 0 then []
    else
      (match tags[0] case Scalar(n) => Chars(n) case Vector(ns) => ns) + ChainFlatten(tags[1..])
  }

  /** The argument format as `patch_default` computes it: chained when any part is a list, the tags themselves otherwise. */
  function ArgFormatAsWritten(tags: seq<Tag>): seq<string>
  {
    if HasVector(tags) then ChainFlatten(tags) else Flatten(tags)
  }

  /** The two formats agree unless the argument list mixes names and arrays. */
  lemma {:induction false} AsWrittenAgreesUnlessMixed(tags: seq<Tag>)
    requires !(HasVector(tags) && HasScalar(tags))
    ensures ArgFormatAsWritten(tags) == ArgFormat(tags)
  {
    if HasVector(tags) {
      ChainFlattenWithoutScalars(tags);
    }
  }

  lemma {:induction false} ChainFlattenWithoutScalars(tags: seq<Tag>)
    requires !HasScalar(tags)
    ensures ChainFlatten(tags) == Flatten(tags)
  {
    if |tags| > 0 {
      assert tags[0].Vector?;
      assert !HasScalar(tags[1..]) by {
        forall i | 0 <= i < |tags[1..]| ensures !tags[1..][i].Scalar? {
          assert tags[1..][i] == tags[i + 1];
        }
      }
      ChainFlattenWithoutScalars(tags[1..]);
    }
  }

  /** A name of the argument list leaves its first character, alone, in the chained format. */
  lemma {:induction false} ChainedScalarLeavesChar(tags: seq<Tag>, j: nat)
    requires j < |tags| && tags[j].Scalar? && |tags[j].name| > 0
    ensures [tags[j].name[0]] in ChainFlatten(tags)
  {
    var head := match tags[0] case Scalar(n) => Chars(n) case Vector(ns) => ns;
    assert ChainFlatten(tags) == head + ChainFlatten(tags[1..]);
    if j == 0 {
      assert head[0] == [tags[0].name[0]];
    } else {
      assert tags[1..][j - 1] == tags[j];
      ChainedScalarLeavesChar(tags[1..], j - 1);
    }
  }

  /**
   * As written, an argument list that mixes an array with a named
   * argument never counts as uniform: the name falls apart into
   * one-character strings, and none of them is "int", "float" or "string".
   */
  lemma MixedArgumentsNeverUniformAsWritten(tags: seq<Tag>, j: nat)
    requires HasVector(tags)
    requires j < |tags| && tags[j].Scalar? && |tags[j].name| > 0
    ensures Uniform(ArgFormatAsWritten(tags)).None?
  {
    ChainedScalarLeavesChar(tags, j);
  }

  /** The argument formats of all overloads that take arguments, in order: at most one per overload. */
  function ArgFormats(sig: Signature): (r: seq<seq<string>>)
    ensures |r| <= |sig|
  {
    if |sig| == 0 then []
    else
      var last := sig[|sig| - 1];
      ArgFormats(sig[..|sig| - 1]) + (if last.args.None? then [] else [ArgFormat(last.args.value)])
  }

  /**
   * Every overload with arguments contributes its format, and every format
   * comes from such an overload.
   */
  lemma {:induction false} ArgFormatsMembers(sig: Signature)
    ensures forall i :: 0 <= i < |sig| && sig[i].args.Some? ==> ArgFormat(sig[i].args.value) in ArgFormats(sig)
    ensures forall f :: f in ArgFormats(sig) ==>
              exists i :: 0 <= i < |sig| && sig[i].args.Some? && f == ArgFormat(sig[i].args.value)
  {
    if |sig| > 0 {
      var init, last := sig[..|sig| - 1], sig[|sig| - 1];
      ArgFormatsMembers(init);
      assert forall i :: 0 <= i < |init| ==> init[i] == sig[i];
      assert ArgFormats(sig) == ArgFormats(init) + (if last.args.None? then [] else [ArgFormat(last.args.value)]);
      forall f | f in ArgFormats(sig)
        ensures exists i :: 0 <= i < |sig| && sig[i].args.Some? && f == ArgFormat(sig[i].args.value)
      {
        if f !in ArgFormats(init) {
          assert sig[|sig| - 1].args.Some? && f == ArgFormat(sig[|sig| - 1].args.value);
        }
      }
    }
  }

  /**
   * Formats follow the overloads' order: the formats of two runs of
   * overloads are the formats of the first run followed by those of the
   * second, so an overload without arguments contributes nothing.
   */
  lemma {:induction false} ArgFormatsConcat(a: Signature, b: Signature)
    ensures ArgFormats(a + b) == ArgFormats(a) + ArgFormats(b)
    decreases |b|
  {
    if |b| == 0 {
      assert a + b == a;
    } else {
      var ab := a + b;
      assert ab[..|ab| - 1] == a + b[..|b| - 1];
      assert ab[|ab| - 1] == b[|b| - 1];
      ArgFormatsConcat(a, b[..|b| - 1]);
    }
  }

  /** The same, with the formats computed as written. */
  function ArgFormatsAsWritten(sig: Signature): seq<seq<string>>
  {
    if |sig| == 0 then []
    else
      var last := sig[|sig| - 1];
      ArgFormatsAsWritten(sig[..|sig| - 1]) + (if last.args.None? then [] else [ArgFormatAsWritten(last.args.value)])
  }

  /**
   * The default `patch_default` settles on: the zeros of the first uniform
   * format, or the given default. It is the given default or a value that
   * has a trait type and is not a `_p_void` pointer, so `get_trait_type`
   * never raises in the `_p_void` branch.
   */
  function PatchedDefault(fmts: seq<seq<string>>, default: Value): (r: Value)
    ensures r == default || (GetTraitType(r).Success? && !IsPVoid(r))
  {
    if |fmts| == 0 then default
    else match Uniform(fmts[0])
      case Some(k) =>
        ZeroOfTyped(k, |fmts[0]|);
        ZeroOf(k, |fmts[0]|)
      case None => PatchedDefault(fmts[1..], default)
  }

  /** No overload's argument list mixes names and arrays. */
  predicate NoneMixed(sig: Signature)
  {
    forall i :: 0 <= i < |sig| && sig[i].args.Some? ==> !(HasVector(sig[i].args.value) && HasScalar(sig[i].args.value))
  }

  /** The formats as written agree with the spliced ones when no argument list mixes names and arrays. */
  lemma {:induction false} ArgFormatsAgreeUnlessMixed(sig: Signature)
    ensures NoneMixed(sig) ==> ArgFormatsAsWritten(sig) == ArgFormats(sig)
  {
    if |sig| > 0 && NoneMixed(sig) {
      var init := sig[..|sig| - 1];
      assert forall i :: 0 <= i < |init| ==> init[i] == sig[i];
      ArgFormatsAgreeUnlessMixed(init);
      var last := sig[|sig| - 1];
      if last.args.Some? {
        AsWrittenAgreesUnlessMixed(last.args.value);
      }
    }
  }

  /**
   * `patch_default` as written. Only an argument list that mixes names and
   * arrays can make it differ from the corrected splice.
   */
  function PatchDefaultAsWritten(sig: Signature, default: Value): (r: Value)
    ensures NoneMixed(sig) ==> r == PatchedDefault(ArgFormats(sig), default)
  {
    ArgFormatsAgreeUnlessMixed(sig);
    PatchedDefault(ArgFormatsAsWritten(sig), default)
  }

  /**
   * `patch_default(vtk_set_meth, default)`, given the setter's signature:
   * collect the argument formats, then return the zeros of the first one
   * whose types are all "int", all "float" or all "string".
   */
  method PatchDefault(sig: Signature, default: Value) returns (r: Value)
    ensures r == PatchedDefault(ArgFormats(sig), default)
  {
    var formats: seq<seq<string>> := [];
    var i := 0;
    while i < |sig|
      invariant 0 <= i <= |sig|
      invariant formats == ArgFormats(sig[..i])
    {
      assert sig[..i + 1][..i] == sig[..i];
      if sig[i].args.Some? {
        formats := formats + [ArgFormat(sig[i].args.value)];
      }
      i := i + 1;
    }
    assert sig[..|sig|] == sig;
    var j := 0;
    while j < |formats|
      invariant 0 <= j <= |formats|
      invariant PatchedDefault(formats[j..], default) == PatchedDefault(formats, default)
    {
      var k := Uniform(formats[j]);
      if k.Some? {
        return ZeroOf(k.value, |formats[j]|);
      }
      assert formats[j..][1..] == formats[j + 1..];
      j := j + 1;
    }
    return default;
  }

  /** The first uniform format decides the result. */
  lemma {:induction false} PatchedDefaultFirstMatch(fmts: seq<seq<string>>, default: Value, j: nat)
    requires j < |fmts| && Uniform(fmts[j]).Some?
    requires forall i :: 0 <= i < j ==> Uniform(fmts[i]).None?
    ensures PatchedDefault(fmts, default) == ZeroOf(Uniform(fmts[j]).value, |fmts[j]|)
  {
    if j > 0 {
      PatchedDefaultFirstMatch(fmts[1..], default, j - 1);
    }
  }

  /** Without a uniform format the default is returned unchanged. */
  lemma {:induction false} PatchedDefaultNoMatch(fmts: seq<seq<string>>, default: Value)
    requires forall i :: 0 <= i < |fmts| ==> Uniform(fmts[i]).None?
    ensures PatchedDefault(fmts, default) == default
  {
    if |fmts| > 0 {
      PatchedDefaultNoMatch(fmts[1..], default);
    }
  }

  /** A patched zero has a trait type, is a tuple exactly when it stands for several (or no) arguments, and is never a `_p_void` string. */
  lemma ZeroOfTyped(k: ZeroKind, n: nat)
    ensures GetTraitType(ZeroOf(k, n)).Success?
    ensures n != 1 <==> ZeroOf(k, n).TupleV?
    ensures n != 1 ==> |ZeroOf(k, n).elems| == n
    ensures !IsPVoid(ZeroOf(k, n))
  {
    if n == 1 && k == StrZero {
      assert !EndsWith("None", "_p_void");
    }
  }

  /** The `SetPosition(int, int)` example: a `_p_void` position becomes `(0, 0)`. */
  lemma PatchDefaultPositionExample()
    ensures PatchedDefault(ArgFormats([Overload(None, Some([Scalar("int"), Scalar("int")]))]),
                           StrV("_000000000351c458_p_void"))
            == TupleV([IntV(0), IntV(0)])
  {
    var tags := [Scalar("int"), Scalar("int")];
    var sig := [Overload(None, Some(tags))];
    assert sig[..0] == [];
    assert !HasVector(tags);
    assert ArgFormat(tags) == ["int", "int"];
    assert ArgFormats(sig) == ArgFormats(sig[..0]) + [ArgFormat(tags)];
    assert Uniform(["int", "int"]) == Some(IntZero);
  }

  /** The `SetPosition(int position[2])` form gives the same `(0, 0)`. */
  lemma PatchDefaultPositionArrayExample()
    ensures PatchedDefault(ArgFormats([Overload(None, Some([Vector(["int", "int"])]))]),
                           StrV("_000000000351c458_p_void"))
            == TupleV([IntV(0), IntV(0)])
  {
    var tags := [Vector(["int", "int"])];
    var sig := [Overload(None, Some(tags))];
    assert sig[..0] == [];
    assert Flatten(tags) == ["int", "int"] + Flatten([]);
    assert ArgFormats(sig) == ArgFormats(sig[..0]) + [ArgFormat(tags)];
    assert Uniform(["int", "int"]) == Some(IntZero);
  }

  /**
   * A setter taking a float array and a float: as written the float name
   * is split into characters and the `_p_void` default is kept; the
   * corrected flattening finds three floats.
   */
  lemma MixedArgumentsExample()
    ensures PatchDefaultAsWritten([Overload(None, Some([Vector(["float", "float"]), Scalar("float")]))],
                                  StrV("_p_void"))
            == StrV("_p_void")
    ensures PatchedDefault(ArgFormats([Overload(None, Some([Vector(["float", "float"]), Scalar("float")]))]),
                           StrV("_p_void"))
            == TupleV([FloatV(0.0), FloatV(0.0), FloatV(0.0)])
  {
    var tags := [Vector(["float", "float"]), Scalar("float")];
    var sig := [Overload(None, Some(tags))];
    assert sig[..0] == [];
    assert tags[0].Vector?;
    MixedArgumentsNeverUniformAsWritten(tags, 1);
    assert ArgFormatsAsWritten(sig) == [ArgFormatAsWritten(tags)];
    assert tags[1..] == [Scalar("float")] && tags[1..][1..] == [];
    var fmt := ["float", "float", "float"];
    calc {
      Flatten(tags);
      ["float", "float"] + Flatten(tags[1..]);
      ["float", "float"] + (["float"] + Flatten([]));
      fmt;
    }
    assert ArgFormats(sig) == ArgFormats(sig[..0]) + [ArgFormat(tags)];
    assert "float"[0] != "int"[0];
    assert fmt[0] in fmt && fmt[0] != "int";
    assert forall t :: t in fmt ==> t == "float";
    assert Uniform(fmt) == Some(FloatZero);
    assert ArgFormats(sig) == [fmt];
    assert PatchedDefault([fmt], StrV("_p_void")) == ZeroOf(FloatZero, 3);
    assert ZeroOf(FloatZero, 3).elems == [FloatV(0.0), FloatV(0.0), FloatV(0.0)];
  }

  // ---------------------------------------------------------------------
  // The fallback when no default was recorded
  // ---------------------------------------------------------------------

  /**
   * The default guessed from a getter's first return type. Only the basic
   * return types "int", "float" and "string" give a typed default; anything
   * else gives `None`, and the result is never a `_p_void` string.
   */
  function FallbackDefault(ret: Tag): (r: Value)
    ensures GetTraitType(r).Success? <==> ret.Scalar? && ret.name in {"int", "float", "string"}
    ensures !GetTraitType(r).Success? ==> r == NoneV
    ensures ret == Scalar("int") ==> r == IntV(0)
    ensures ret == Scalar("float") ==> r == FloatV(0.0)
    ensures ret == Scalar("string") ==> r == StrV("")
    ensures !IsPVoid(r)
  {
    match ret
    case Vector(_) => NoneV
    case Scalar(n) =>
      BasicNameNotVtk(n);
      if StartsWith(n, "vtk") then NoneV
      else if n == "int" then IntV(0)
      else if n == "float" then FloatV(0.0)
      else if n == "string" then StrV("")
      else NoneV
  }

  /**
   * The fallback for a getter without recorded default: when the first
   * overload takes no argument, the default guessed from its first return
   * type; otherwise `None`, and the getter and setter are wrapped as
   * plain methods.
   */
  function FallbackMeta(sig: Signature): (r: Option<Value>)
    requires |sig| > 0
    requires sig[0].args.None? ==> sig[0].rets.Some? && |sig[0].rets.value| > 0
    ensures r.Some? <==> sig[0].args.None?
    ensures r.Some? ==> r.value == NoneV || GetTraitType(r.value).Success?
    ensures r.Some? ==> (GetTraitType(r.value).Success? <==>
      sig[0].rets.value[0].Scalar? && sig[0].rets.value[0].name in {"int", "float", "string"})
    ensures r.Some? ==> !IsPVoid(r.value)
  {
    if sig[0].args.None? then Some(FallbackDefault(sig[0].rets.value[0])) else None
  }

  /** The basic type names do not start with "vtk". */
  lemma BasicNameNotVtk(n: string)
    ensures n in {"int", "float", "string"} ==> !StartsWith(n, "vtk")
  {
    if n in {"int", "float", "string"} {
      assert n[0] != 'v';
    }
  }

  // ---------------------------------------------------------------------
  // Ranges
  // ---------------------------------------------------------------------

  /** A closed range of valid values `(low, high)`. */
  datatype Range = Range(low: real, high: real)

  predicate InRange(d: real, rng: Range)
  {
    rng.low <= d <= rng.high
  }

  /** A default less than 2 below (above) the range moves the lower (upper) end onto it. */
  function WidenedRange(d: real, rng: Range): (w: Range)
    ensures w.low <= rng.low && rng.low - w.low < 2.0
    ensures w.high >= rng.high && w.high - rng.high < 2.0
    ensures w.low == rng.low || w.low == d
    ensures w.high == rng.high || w.high == d
  {
    var low := if d < rng.low && rng.low - d < 2.0 then d else rng.low;
    var high := if d > rng.high && d - rng.high < 2.0 then d else rng.high;
    Range(low, high)
  }

  /** A default already in range leaves the range alone. */
  lemma WideningKeepsValidRange(d: real, rng: Range)
    requires InRange(d, rng)
    ensures WidenedRange(d, rng) == rng
  {
  }

  /** Widening twice is widening once. */
  lemma WideningIdempotent(d: real, rng: Range)
    ensures WidenedRange(d, WidenedRange(d, rng)) == WidenedRange(d, rng)
  {
  }

  /** After widening, a default lies in the range exactly when it was less than 2 outside it. */
  lemma WidenedRangeHolds(d: real, rng: Range)
    requires rng.low <= rng.high
    ensures InRange(d, WidenedRange(d, rng)) <==> rng.low - 2.0 < d < rng.high + 2.0
  {
  }

  /** The range trait written for an attribute: the (widened) range, and whether the default must be allowed besides it. */
  datatype RangeTrait = RangeTrait(default: real, range: Range, defaultOutside: bool)

  /**
   * The range trait written for an attribute: the written range contains
   * the original one, and the default is declared as an extra valid value
   * exactly when it is 2 or more outside the range.
   */
  function RangeTraitFor(d: real, rng: Range): (r: RangeTrait)
    ensures r.default == d
    ensures r.range.low <= rng.low && r.range.high >= rng.high
    ensures rng.low <= rng.high ==> (r.defaultOutside <==> d <= rng.low - 2.0 || d >= rng.high + 2.0)
  {
    var w := WidenedRange(d, rng);
    RangeTrait(d, w, d < w.low || d > w.high)
  }
}
