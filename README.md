# Type registry of skwell, modelled in Dafny

skwell wraps the `tedious` SQL Server driver. Its module `src/types.js` builds,
when it is loaded, a type registry: a dictionary from a lower-cased type name to
a constructor of a `TypeWrapper` for that driver type. The registry is built by one
`reduce` over the driver's type catalogue, taken in catalogue order:

- names ending in `N` and the name `Null` are skipped (they are the driver's
  deprecated aliases);
- every other name is stored under `name.toLowerCase()`;
- the constructor's argument shape comes from the type's capabilities, tried in
  priority order: a maximum length gives `{ length }`, precision together with
  scale gives `{ precision, scale }`, scale alone gives `{ scale }`, anything
  else gives a wrapper without a shape;
- every constructor gets a `.nullable(val)` helper that calls the constructor with
  no arguments and marks the result nullable;
- the dictionary starts as `{ max: null }`.

The project has two modules:

- `strings.dfy`, module `Strings`: `toLowerCase` over ASCII and `endsWith`.
- `types.dfy`, module `Types`: the catalogue, shapes, wrappers and registry entries.
  `Fold`/`RegistryOf` are the `reduce` written as a recursive function. `Build` is
  the same pass written as a loop that rebinds a map value step by step, proved
  equal to `RegistryOf`. `Call` and `CallNullable` model calling `registry[key](...)` and
  `registry[key].nullable(val)`. The lemmas then describe the registry key by key.

How things are modelled:

- The catalogue is a sequence of capability records `TypeInfo(name, maximumLength,
  hasPrecision, hasScale)`, in the order `Object.keys` lists them. A driver type
  object is represented by its index in that sequence.
- `maximumLength` is a natural number, and it counts as present when it is non-zero,
  which is JavaScript truthiness for numbers.
- A call's arguments are a sequence of `Arg`, each `Undefined`, `Null` (the value
  of `registry.max`) or `Given(n)`.
  A parameter with no matching argument reads `Undefined`, and extra arguments
  are ignored, as in JavaScript.
- A registry value is `MaxSentinel` (the `null` seed) or `Ctor(typeIdx, kind,
  hasNullable)`. `hasNullable` records the source's second write, which attaches
  the helper to the constructor. `Build` performs both writes.
  `Fold` writes the finished entry in one step.
- The `.nullable` helper looks up `registry[key]` when it runs, not when it is
  built. `CallNullable` does the same.

Two facts about the code worth knowing:

- `registry.<type>.nullable(val)` (src/types.js:24-26) calls the constructor with
  no arguments and passes on only `val`. Every shape field of the result is
  therefore undefined; shape arguments cannot be given through the helper. See
  `Types.NullableHelper`.
- The code never checks how many arguments a constructor gets: missing arguments
  become `undefined` fields and extra arguments are dropped. See `Types.Construct`.

## Model

| member | source | states |
|---|---|---|
| `Strings.LowerChar` | src/types.js:12 | the result is never an upper-case ASCII letter; a character is unchanged exactly when it is not upper-case; an upper-case letter moves by the distance from `A` to `a` |
| `Strings.ToLowerCase` | src/types.js:12 | lower-casing keeps the string's length |
| `Strings.ToLowerCaseSpec` | src/types.js:12 | the lower-cased string is the input lower-cased position by position, and it contains no upper-case letter |
| `Strings.LowerCaseIsFixed` | src/types.js:12 | a string with no upper-case letter is its own lower-cased form |
| `Strings.EndsWithChar` | src/types.js:7 | `endsWith` with a one-character suffix holds exactly when the string is non-empty and its last character is that one |
| `Types.DeprecatedNames` | src/types.js:7-10 | a name is skipped exactly when its last character is `N` or it is exactly `Null` |
| `Types.KindOf` | src/types.js:14-22 | the constructor form, as four if-and-only-ifs: length exactly when maximumLength is non-zero, whatever the other flags say; precision-and-scale exactly when there is no maximum length and both flags hold; scale alone exactly when there is no maximum length, scale holds and precision does not; no shape exactly when there is no maximum length and no scale |
| `Types.Construct` | src/types.js:15-21 | a generated constructor returns a non-nullable wrapper for its own catalogue type, whose shape has the constructor's form and whose fields are the call's arguments bound to the declared parameters in order (`undefined` for missing ones) |
| `Types.ShapeDeterminedByFields` | src/types.js:15-21 | a shape is determined by its form and its field list, so `Construct`'s contract fixes the shape |
| `Types.StepAt` | src/types.js:7-28 | one reduce step adds or overwrites only the key its catalogue entry writes, with that entry's constructor and helper; every other key keeps its presence and value; a skipped name changes nothing |
| `Types.LastWriter` | src/types.js:6-28 | finds the last catalogue entry before position `n` that writes a key: it writes the key, no later entry before `n` does, and when the result is none, no entry before `n` writes it |
| `Types.FoldLookup` | src/types.js:6-29 | after `n` entries, a key is present exactly when it is `max` or some entry so far wrote it; it then holds the constructor of the last entry that wrote it, or the `null` seed if no entry did |
| `Types.Build` | src/types.js:6-29 | the loop over the catalogue, with the constructor write and the helper write done separately, yields exactly `RegistryOf(cat)` |
| `Types.RegistryKeys` | src/types.js:6-29 | the registry's key set is `max` together with the lower-cased names of all non-deprecated catalogue entries |
| `Types.RegistryKeysLowerCase` | src/types.js:12 | no registry key contains an upper-case letter, and every registry key is its own lower-cased form |
| `Types.RegistryEntriesWellFormed` | src/types.js:11-26 | every constructor in the registry wraps a non-deprecated catalogue type, is stored under exactly that type's lower-cased name, has the form the type's capabilities select, and carries its `.nullable` helper |
| `Types.DeprecatedContributesNothing` | src/types.js:7-10 | for a catalogue entry whose name's last character is `N`, or whose name is exactly `Null`, no constructor in the registry wraps that entry |
| `Types.NameRegistered` | src/types.js:11-22 | every non-deprecated name has a constructor under its lower-cased key; that constructor is for the same entry or a later one with the same lower-cased name, and it is the entry's own exactly when no later entry writes that key |
| `Types.LaterOverwrites` | src/types.js:6 | if two entries lower-case to the same key, the registry's constructor for it is at or after the later one |
| `Types.MaxSeed` | src/types.js:29 | `max` is always a key, and it still holds `null` exactly when no non-deprecated name lower-cases to `max` |
| `Types.CallRegistry` | src/types.js:14-21 | `registry[key](...args)` succeeds exactly when some non-deprecated name lower-cases to `key`. The wrapper it returns is for a type whose name gives that key. It is not nullable. Its shape has the form that type's capabilities select and holds exactly the bound arguments |
| `Types.ShapeRespectsCapabilities` | src/types.js:14-21 | a wrapper from the registry has a length shape exactly when its type has a maximum length. It has a precision-and-scale shape exactly when its type has both flags and no maximum length. It has a scale shape exactly when its type has scale only. It has no shape exactly when its type has neither a maximum length nor scale |
| `Types.NullableHelper` | src/types.js:24-26 | `registry[key].nullable(val)` succeeds exactly when `registry[key]()` does. It then equals that wrapper with the flag set to `val`, and all its shape fields are undefined. On `max` or an absent key it is the TypeError for reading a property of null or undefined |

## Left out

- The `tedious` catalogue and its type objects are foreign. The catalogue is an input sequence of capability records, and a type object is its index in that sequence.
- The internals of `TypeWrapper` (src/TypeWrapper.js) are not part of this model. A wrapper is the triple of type, shape and nullable flag. `.nullable(val)` is modelled as setting the flag, and it is not modelled whether that copies the wrapper or changes it in place.
- `Strings.ToLowerCase`: covers ASCII letters only. Other characters are unchanged, with no Unicode case mapping. The driver's type names are ASCII.
- Plain JavaScript object semantics are not modelled. Only the dictionary's own keys are modelled, so lookups that reach `Object.prototype` members (such as `registry.constructor`) are not captured. A type name of `__proto__` would change the prototype instead of adding a key, and this is not captured either.
- Argument values are integers, `null` or `undefined`. Other JavaScript values that a caller might pass as a length, precision or scale are not distinguished.
- The reduce mutates one shared `acc` object in place (src/types.js:15-26), and every `.nullable` helper holds a reference to that object and reads `acc[key]` when it runs (src/types.js:25). The model captures that in-place mutation and aliasing only by having `CallNullable` look the key up in the final registry value. It does not capture later mutation of the exported object by callers.
- `registry.<type>.nullable()` with no argument passes `undefined` on to `TypeWrapper.nullable`, whose behaviour is not shown. `CallNullable` takes a boolean, so that call is not modelled.
- `maximumLength`, `hasPrecision` and `hasScale` are a natural number and two booleans. Non-numeric or `NaN` lengths are not modelled.
- The catalogue's names are keys of one object, so they are distinct. The model does not assume this, and its lemmas hold without it.
- The `.nullable` helper of a constructor that a later entry overwrote is no longer reachable from the registry, so it is not modelled.
- Bulk loading (spec/integration/bulkLoad.spec.js) is left out. Its implementation is not part of this model, so it has no source to follow: the temp-table-on-pool rejection, implicit table creation and the "Invalid object name" pass-through. It also needs a live server connection.
- Connection pooling, transactions, loading SQL from files and `dispose` are left out. They are I/O and lifecycle code.
