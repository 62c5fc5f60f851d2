/**
 * The type registry of src/types.js.
 *
 * At load time the module walks the driver's type catalogue once, in
 * catalogue order, and builds a dictionary from a lower-cased type name to a
 * constructor. Deprecated names are skipped, the dictionary starts out as
 * `{ max: null }`, each constructor's argument shape follows the type's
 * declared capabilities, and each constructor carries a `.nullable(val)`
 * helper.
 *
 * The driver's type objects are abstracted as their index in the catalogue
 * (`typeIdx`), and a TypeWrapper as the triple of that index, its shape and
 * its nullable flag.
 */
module Types {
  import opened Strings

  // ---------------------------------------------------------------------
  // Data model
  // ---------------------------------------------------------------------

  /** One entry of the driver's catalogue: its key in the catalogue and its declared capabilities. */
  datatype TypeInfo = TypeInfo(name: string, maximumLength: nat, hasPrecision: bool, hasScale: bool)

  /** The catalogue, in the order its keys are enumerated. */
  type Catalogue = seq<TypeInfo>

  /** A JavaScript argument value as far as a shape sees it: absent (`undefined`), `null` (such as `registry.max`), or a number. */
  datatype Arg = Undefined | Null | Given(value: int)

  /** The shape object handed to a TypeWrapper; `NoShape` is the wrapper built without one. */
  datatype Shape =
    | NoShape
    | LengthShape(length: Arg)
    | PrecisionScaleShape(precision: Arg, scale: Arg)
    | ScaleShape(scale: Arg)

  /** A TypeWrapper: the catalogue type it wraps, its shape, and whether it is nullable. */
  datatype TypeWrapper = TypeWrapper(typeIdx: nat, shape: Shape, nullable: bool)

  /** Which of the four constructor forms a type gets. */
  datatype ShapeKind = ByLength | ByPrecisionScale | ByScale | Plain

  /**
   * A value of the registry dictionary: the `max: null` seed, or a constructor
   * for catalogue type `typeIdx` of form `kind`; `hasNullable` says whether the
   * `.nullable` helper has been attached to it yet.
   */
  datatype Entry = MaxSentinel | Ctor(typeIdx: nat, kind: ShapeKind, hasNullable: bool)

  type Registry = map<string, Entry>

  datatype Option<T> = None | Some(value: T)

  /** The TypeErrors a caller meets when the property it uses is not a function or not an object. */
  datatype Error =
    | NotAFunction(key: string, ofNullable: bool) // registry[key](...) or registry[key].nullable(...) on a non-function
    | NullableOfNothing(key: string)             // registry[key].nullable on null or undefined

  datatype Result<T> = Ok(value: T) | Err(error: Error)

  // ---------------------------------------------------------------------
  // Capabilities and constructors
  // ---------------------------------------------------------------------

  /** The names the registry skips to avoid the driver's deprecation warnings. */
  predicate IsDeprecated(name: string) {
    EndsWith(name, "N") || name == "Null"
  }

  /** A deprecated name is one whose last character is `N`, or exactly `Null`. */
  lemma DeprecatedNames(name: string)
    ensures IsDeprecated(name) <==> (|name| > 0 && name[|name| - 1] == 'N') || name == "Null"
  {
    EndsWithChar(name, 'N');
  }

  /**
   * The constructor form a type gets. The capabilities are tried in priority
   * order: a (non-zero) maximum length wins over precision and scale, precision
   * together with scale wins over scale alone.
   */
  function KindOf(t: TypeInfo): (k: ShapeKind)
    ensures k == ByLength <==> t.maximumLength > 0
    ensures k == ByPrecisionScale <==> t.maximumLength == 0 && t.hasPrecision && t.hasScale
    ensures k == ByScale <==> t.maximumLength == 0 && !t.hasPrecision && t.hasScale
    ensures k == Plain <==> t.maximumLength == 0 && !t.hasScale
  {
    if t.maximumLength > 0 then ByLength
    else if t.hasPrecision && t.hasScale then ByPrecisionScale
    else if t.hasScale then ByScale
    else Plain
  }

  /** The number of parameters the constructor of each form declares. */
  function Arity(k: ShapeKind): nat {
    match k
    case ByLength => 1
    case ByPrecisionScale => 2
    case ByScale => 1
    case Plain => 0
  }

  /** The `i`-th positional argument of a call: `undefined` when the caller passed fewer. */
  function ArgAt(args: seq<Arg>, i: nat): Arg {
    if i < |args| then args[i] else Undefined
  }

  /** The values a function with `n` parameters binds from `args`. */
  function Bound(args: seq<Arg>, n: nat): seq<Arg> {
    seq(n, i requires 0 <= i < n => ArgAt(args, i))
  }

  /** The form a shape object has. */
  function KindOfShape(s: Shape): ShapeKind {
    match s
    case NoShape => Plain
    case LengthShape(_) => ByLength
    case PrecisionScaleShape(_, _) => ByPrecisionScale
    case ScaleShape(_) => ByScale
  }

  /** The fields of a shape object, in the order the constructor names its parameters. */
  function Fields(s: Shape): seq<Arg> {
    match s
    case NoShape => []
    case LengthShape(l) => [l]
    case PrecisionScaleShape(p, sc) => [p, sc]
    case ScaleShape(sc) => [sc]
  }

  /** A shape is determined by its form and its fields. */
  lemma ShapeDeterminedByFields(s1: Shape, s2: Shape)
    requires KindOfShape(s1) == KindOfShape(s2) && Fields(s1) == Fields(s2)
    ensures s1 == s2
  {
    match s1
    case NoShape =>
    case LengthShape(_) => assert Fields(s1)[0] == Fields(s2)[0];
    case PrecisionScaleShape(_, _) => assert Fields(s1)[0] == Fields(s2)[0] && Fields(s1)[1] == Fields(s2)[1];
    case ScaleShape(_) => assert Fields(s1)[0] == Fields(s2)[0];
  }

  /**
   * Calling the generated constructor of form `k` for catalogue type `idx`
   * with `args`: a wrapper for that type, not nullable, whose shape has form
   * `k` and whose fields are the arguments bound to its parameters, in order.
   */
  function Construct(idx: nat, k: ShapeKind, args: seq<Arg>): (w: TypeWrapper)
    ensures w.typeIdx == idx && !w.nullable
    ensures KindOfShape(w.shape) == k
    ensures Fields(w.shape) == Bound(args, Arity(k))
  {
    match k
    case ByLength => TypeWrapper(idx, LengthShape(ArgAt(args, 0)), false)
    case ByPrecisionScale => TypeWrapper(idx, PrecisionScaleShape(ArgAt(args, 0), ArgAt(args, 1)), false)
    case ByScale => TypeWrapper(idx, ScaleShape(ArgAt(args, 0)), false)
    case Plain => TypeWrapper(idx, NoShape, false)
  }

  /** `wrapper.nullable(val)`: the same type and shape, with the nullable flag set to `val`. */
  function SetNullable(w: TypeWrapper, val: bool): TypeWrapper {
    w.(nullable := val)
  }

  /** `registry[key](...args)`. */
  function Call(reg: Registry, key: string, args: seq<Arg>): Result<TypeWrapper> {
    if key !in reg then Err(NotAFunction(key, false))
    else match reg[key]
      case MaxSentinel => Err(NotAFunction(key, false))
      case Ctor(idx, k, _) => Ok(Construct(idx, k, args))
  }

  /**
   * `registry[key].nullable(val)`. The helper looks `registry[key]` up when it
   * runs and calls it with no arguments.
   */
  function CallNullable(reg: Registry, key: string, val: bool): Result<TypeWrapper> {
    if key !in reg then Err(NullableOfNothing(key))
    else match reg[key]
      case MaxSentinel => Err(NullableOfNothing(key))
      case Ctor(_, _, helper) =>
        if !helper then Err(NotAFunction(key, true))
        else match Call(reg, key, [])
          case Ok(w) => Ok(SetNullable(w, val))
          case Err(e) => Err(e)
  }

  // ---------------------------------------------------------------------
  // Building the registry
  // ---------------------------------------------------------------------

  /** The dictionary the fold starts from: `{ max: null }`. */
  const Seed: Registry := map["max" := MaxSentinel]

  /** Catalogue entry `i` writes `key`: it is not deprecated and its name lower-cases to `key`. */
  predicate Writes(cat: Catalogue, i: nat, key: string)
    requires i < |cat|
  {
    !IsDeprecated(cat[i].name) && ToLowerCase(cat[i].name) == key
  }

  /**
   * One step of the fold, for catalogue entry `i`: a deprecated name leaves the
   * dictionary alone; any other name sets its lower-cased key to a constructor
   * for that type (with its helper attached) and touches no other key.
   */
  function Step(acc: Registry, cat: Catalogue, i: nat): Registry
    requires i < |cat|
  {
    var name := cat[i].name;
    if IsDeprecated(name) then acc
    else acc[ToLowerCase(name) := Ctor(i, KindOf(cat[i]), true)]
  }

  /**
   * A step touches at most the key its entry writes: that key then holds the
   * entry's constructor, every other key keeps its presence and its value.
   */
  lemma StepAt(acc: Registry, cat: Catalogue, i: nat, key: string)
    requires i < |cat|
    ensures key in Step(acc, cat, i) <==> Writes(cat, i, key) || key in acc
    ensures Writes(cat, i, key) ==> Step(acc, cat, i)[key] == Ctor(i, KindOf(cat[i]), true)
    ensures !Writes(cat, i, key) && key in acc ==> Step(acc, cat, i)[key] == acc[key]
  {
  }

  /** The dictionary after the first `n` catalogue entries. */
  function Fold(cat: Catalogue, n: nat): Registry
    requires n <= |cat|
    decreases n
  {
    if n == 0 then Seed else Step(Fold(cat, n - 1), cat, n - 1)
  }

  /** What src/types.js exports for catalogue `cat`. */
  function RegistryOf(cat: Catalogue): Registry {
    Fold(cat, |cat|)
  }

  /** The last of the first `n` catalogue entries that writes `key`, if any. */
  function LastWriter(cat: Catalogue, key: string, n: nat): (r: Option<nat>)
    requires n <= |cat|
    ensures r.Some? ==> r.value < n && Writes(cat, r.value, key)
    ensures r.Some? ==> forall j :: r.value < j < n ==> !Writes(cat, j, key)
    ensures r.None? ==> forall j :: 0 <= j < n ==> !Writes(cat, j, key)
    decreases n
  {
    if n == 0 then None
    else if Writes(cat, n - 1, key) then Some(n - 1)
    else LastWriter(cat, key, n - 1)
  }

  /** The entry `key` should hold after `n` steps: that of its last writer, or the seed. */
  function Expected(cat: Catalogue, key: string, n: nat): Entry
    requires n <= |cat|
  {
    match LastWriter(cat, key, n)
    case Some(i) => Ctor(i, KindOf(cat[i]), true)
    case None => MaxSentinel
  }

  /**
   * The fold, key by key: after `n` entries a key is present exactly when it is
   * `max` or some entry so far wrote it, and it holds the constructor of the
   * last entry that wrote it, or the `null` seed when none did.
   */
  lemma {:induction false} FoldLookup(cat: Catalogue, n: nat, key: string)
    requires n <= |cat|
    ensures key in Fold(cat, n) <==> key == "max" || LastWriter(cat, key, n).Some?
    ensures key in Fold(cat, n) ==> Fold(cat, n)[key] == Expected(cat, key, n)
  {
    if n > 0 {
      FoldLookup(cat, n - 1, key);
      StepAt(Fold(cat, n - 1), cat, n - 1, key);
      if Writes(cat, n - 1, key) {
        assert LastWriter(cat, key, n) == Some(n - 1);
      } else {
        assert LastWriter(cat, key, n) == LastWriter(cat, key, n - 1);
        assert Expected(cat, key, n) == Expected(cat, key, n - 1);
      }
    }
  }

  /**
   * Loop form of the `reduce` in src/types.js: one pass over the catalogue in
   * order that rebinds a map value step by step, with the constructor written
   * first and its `.nullable` helper attached by a second write.
   */
  method Build(cat: Catalogue) returns (acc: Registry)
    ensures acc == RegistryOf(cat)
  {
    acc := map["max" := MaxSentinel];
    var i := 0;
    while i < |cat|
      invariant 0 <= i <= |cat|
      invariant acc == Fold(cat, i)
    {
      var t := cat[i];
      if !(EndsWith(t.name, "N") || t.name == "Null") {
        var key := ToLowerCase(t.name);
        if t.maximumLength > 0 {
          acc := acc[key := Ctor(i, ByLength, false)];
        } else if t.hasPrecision && t.hasScale {
          acc := acc[key := Ctor(i, ByPrecisionScale, false)];
        } else if t.hasScale {
          acc := acc[key := Ctor(i, ByScale, false)];
        } else {
          acc := acc[key := Ctor(i, Plain, false)];
        }
        acc := acc[key := acc[key].(hasNullable := true)];
      }
      i := i + 1;
    }
  }

  // ---------------------------------------------------------------------
  // Properties of the registry
  // ---------------------------------------------------------------------

  /** The lower-cased names of all non-deprecated catalogue entries. */
  function WrittenKeys(cat: Catalogue): set<string> {
    set i | 0 <= i < |cat| && !IsDeprecated(cat[i].name) :: ToLowerCase(cat[i].name)
  }

  /** A key is the lower-cased name of a non-deprecated entry exactly when some entry writes it. */
  lemma WrittenKeysAt(cat: Catalogue, key: string)
    ensures key in WrittenKeys(cat) <==> exists i :: 0 <= i < |cat| && Writes(cat, i, key)
  {
    if key in WrittenKeys(cat) {
      var i :| 0 <= i < |cat| && !IsDeprecated(cat[i].name) && ToLowerCase(cat[i].name) == key;
      assert Writes(cat, i, key);
    }
    if exists i :: 0 <= i < |cat| && Writes(cat, i, key) {
      var i :| 0 <= i < |cat| && Writes(cat, i, key);
      assert ToLowerCase(cat[i].name) in WrittenKeys(cat);
    }
  }

  /** The registry's keys: `max` and the lower-cased name of every non-deprecated catalogue entry. */
  lemma RegistryKeys(cat: Catalogue)
    ensures RegistryOf(cat).Keys == {"max"} + WrittenKeys(cat)
  {
    forall key
      ensures key in RegistryOf(cat) <==> key in {"max"} + WrittenKeys(cat)
    {
      FoldLookup(cat, |cat|, key);
      WrittenKeysAt(cat, key);
    }
  }

  /** Every key of the registry is lower-case, and so is its own lower-cased form. */
  lemma RegistryKeysLowerCase(cat: Catalogue)
    ensures forall key :: key in RegistryOf(cat) ==> IsLowerCase(key)
    ensures forall key :: key in RegistryOf(cat) ==> ToLowerCase(key) == key
  {
    forall key | key in RegistryOf(cat)
      ensures IsLowerCase(key) && ToLowerCase(key) == key
    {
      FoldLookup(cat, |cat|, key);
      if key != "max" {
        ToLowerCaseSpec(cat[LastWriter(cat, key, |cat|).value].name);
      }
      LowerCaseIsFixed(key);
    }
  }

  /**
   * Every constructor in the registry wraps a non-deprecated catalogue type,
   * sits under exactly that type's lower-cased name, has the form that type's
   * capabilities select, and carries its `.nullable` helper.
   */
  lemma RegistryEntriesWellFormed(cat: Catalogue)
    ensures forall key :: key in RegistryOf(cat) && RegistryOf(cat)[key].Ctor? ==>
      var e := RegistryOf(cat)[key];
      && e.typeIdx < |cat|
      && !IsDeprecated(cat[e.typeIdx].name)
      && key == ToLowerCase(cat[e.typeIdx].name)
      && e.kind == KindOf(cat[e.typeIdx])
      && e.hasNullable
  {
    forall key | key in RegistryOf(cat) && RegistryOf(cat)[key].Ctor?
      ensures var e := RegistryOf(cat)[key];
        && e.typeIdx < |cat| && !IsDeprecated(cat[e.typeIdx].name)
        && key == ToLowerCase(cat[e.typeIdx].name) && e.kind == KindOf(cat[e.typeIdx]) && e.hasNullable
    {
      FoldLookup(cat, |cat|, key);
    }
  }

  /**
   * A catalogue name whose last character is `N`, or that is exactly `Null`,
   * contributes no entry: no constructor in the registry wraps it.
   */
  lemma DeprecatedContributesNothing(cat: Catalogue, i: nat)
    requires i < |cat|
    requires var name := cat[i].name; (|name| > 0 && name[|name| - 1] == 'N') || name == "Null"
    ensures forall key :: key in RegistryOf(cat) && RegistryOf(cat)[key].Ctor? ==> RegistryOf(cat)[key].typeIdx != i
  {
    DeprecatedNames(cat[i].name);
    RegistryEntriesWellFormed(cat);
  }

  /**
   * A non-deprecated catalogue name always yields a constructor under its
   * lower-cased name: its own, unless a later entry with the same lower-cased
   * name overwrote it.
   */
  lemma NameRegistered(cat: Catalogue, i: nat)
    requires i < |cat| && !IsDeprecated(cat[i].name)
    ensures var key := ToLowerCase(cat[i].name);
      && key in RegistryOf(cat)
      && RegistryOf(cat)[key].Ctor?
      && i <= RegistryOf(cat)[key].typeIdx < |cat|
      && ToLowerCase(cat[RegistryOf(cat)[key].typeIdx].name) == key
      && (RegistryOf(cat)[key].typeIdx == i <==>
            forall j :: i < j < |cat| ==> !Writes(cat, j, key))
  {
    var key := ToLowerCase(cat[i].name);
    assert Writes(cat, i, key);
    FoldLookup(cat, |cat|, key);
  }

  /** Of two entries whose names lower-case to the same key, the later one wins. */
  lemma LaterOverwrites(cat: Catalogue, i: nat, j: nat)
    requires i < j < |cat|
    requires !IsDeprecated(cat[i].name) && !IsDeprecated(cat[j].name)
    requires ToLowerCase(cat[i].name) == ToLowerCase(cat[j].name)
    ensures var key := ToLowerCase(cat[i].name);
      key in RegistryOf(cat) && RegistryOf(cat)[key].Ctor? && RegistryOf(cat)[key].typeIdx >= j
  {
    var key := ToLowerCase(cat[i].name);
    assert Writes(cat, j, key);
    FoldLookup(cat, |cat|, key);
  }

  /**
   * The `max: null` seed is always a key, and it keeps `null` exactly when no
   * non-deprecated catalogue name lower-cases to `max`.
   */
  lemma MaxSeed(cat: Catalogue)
    ensures "max" in RegistryOf(cat)
    ensures RegistryOf(cat)["max"] == MaxSentinel <==>
      forall i :: 0 <= i < |cat| ==> !Writes(cat, i, "max")
  {
    FoldLookup(cat, |cat|, "max");
  }

  /**
   * The constructors of the registry, called with any arguments: a wrapper for
   * the constructor's own catalogue type, not nullable, whose shape follows that
   * type's capabilities in priority order and holds exactly the arguments bound
   * to the constructor's parameters. `max` and absent keys are not callable.
   */
  lemma CallRegistry(cat: Catalogue, key: string, args: seq<Arg>)
    ensures var r := Call(RegistryOf(cat), key, args);
      r.Ok? <==> exists i :: 0 <= i < |cat| && Writes(cat, i, key)
    ensures var r := Call(RegistryOf(cat), key, args);
      r.Ok? ==>
        var w := r.value;
        && w.typeIdx < |cat|
        && Writes(cat, w.typeIdx, key)
        && !w.nullable
        && KindOfShape(w.shape) == KindOf(cat[w.typeIdx])
        && Fields(w.shape) == Bound(args, Arity(KindOf(cat[w.typeIdx])))
  {
    FoldLookup(cat, |cat|, key);
  }

  /**
   * Shapes carry only what the wrapped type declares: a length only for a type
   * with a maximum length, a precision and scale only for a type with both
   * and no maximum length, a scale alone only for a type with scale and neither
   * of the others, and no shape only for a type with neither length nor scale.
   */
  lemma ShapeRespectsCapabilities(cat: Catalogue, key: string, args: seq<Arg>)
    requires Call(RegistryOf(cat), key, args).Ok?
    ensures var w := Call(RegistryOf(cat), key, args).value;
      && w.typeIdx < |cat|
      && (w.shape.LengthShape? <==> cat[w.typeIdx].maximumLength > 0)
      && (w.shape.PrecisionScaleShape? <==>
            cat[w.typeIdx].maximumLength == 0 && cat[w.typeIdx].hasPrecision && cat[w.typeIdx].hasScale)
      && (w.shape.ScaleShape? <==>
            cat[w.typeIdx].maximumLength == 0 && !cat[w.typeIdx].hasPrecision && cat[w.typeIdx].hasScale)
      && (w.shape.NoShape? <==> cat[w.typeIdx].maximumLength == 0 && !cat[w.typeIdx].hasScale)
  {
    CallRegistry(cat, key, args);
  }

  /**
   * `registry[key].nullable(val)` is `registry[key]().nullable(val)` wherever
   * `registry[key]` is a constructor: same type, the flag set to `val`, and
   * every shape field left undefined. On the `max` seed and on absent keys it
   * is a TypeError.
   */
  lemma NullableHelper(cat: Catalogue, key: string, val: bool)
    ensures CallNullable(RegistryOf(cat), key, val).Ok? <==> Call(RegistryOf(cat), key, []).Ok?
    ensures CallNullable(RegistryOf(cat), key, val).Ok? ==>
      var w := CallNullable(RegistryOf(cat), key, val).value;
      && w == SetNullable(Call(RegistryOf(cat), key, []).value, val)
      && w.nullable == val
      && forall a :: a in Fields(w.shape) ==> a == Undefined
    ensures CallNullable(RegistryOf(cat), key, val).Err? ==>
      CallNullable(RegistryOf(cat), key, val).error == NullableOfNothing(key)
  {
    RegistryEntriesWellFormed(cat);
    CallRegistry(cat, key, []);
  }
}
