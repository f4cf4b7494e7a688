# Component metadata decoding, modelled in Dafny

This project models the decoding layer of the Stencil component runtime
(`src/util/data-parse.ts`). A build step emits compact positional tuples.
The decoders turn them into named metadata records, which live in a registry
keyed by tag name:

- `parseComponentRegistry` decodes a first-wave tuple. The new record starts
  with the implicit `mode` and `color` members. The decoder then fills in the
  module id, style ids, members, listeners, slot and load priority. It stores
  the record under its tag, replacing any earlier record, and returns it.
- `parseComponentMeta` enriches a record that is already registered. It
  binds the component class from the loader's export object and merges more
  members. It also sets the host metadata, the events, the will/did-change
  hooks and a normalised shadow flag.
- `parseMembersData`, `parseListenerData` and `parseEventData` are the
  helper decoders. `parseMembersData` merges member records with the last
  write winning. The listener and event decoders turn each flag into a real
  boolean.
- `parsePropertyValue` coerces a raw attribute value to a member's declared
  property type.

Files:

- `wrappers.dfy`: `Option` and `Result`.
- `js_values.dfy`: JavaScript values as a datatype. Defines truthiness
  (`!!v`) and `isDef`.
- `attr_names.dfy`: lower-casing and dash-casing of member names.
- `metadata.dfy`: the tuples, the records, the registry and the type-tag
  constants.
- `data_parse.dfy`: the decoders.
- `property_value.dfy`: the property value coercer.
- `data_parse_lemmas.dfy`: properties that relate several decoder calls.

The source changes records in place. Here each decoder returns the updated
record or registry. `parseComponentMeta` reads `registry[tag]` and then
writes a field of it. For a tag that was never registered, that read gives
`undefined`, and the write throws before anything changes. The model returns
`Failure(UnknownTag(tag))` in that case and leaves the registry untouched.

The source performs no validation of the module id. The model does not add
any: a tuple whose module-id slot is undefined registers like any other
tuple. A stricter design would reject it with an `InvalidTupleShape` error,
but this model follows the code.

Sparse tuple positions are modelled in three ways:
- Arrays and maps whose truthiness the code tests are `Option`. `None` stands
  for an absent slot or a falsy placeholder.
- Numeric type tags compared with `===` are `Option<int>`.
- Slots copied verbatim are `Value`, with `Undefined` when the slot is absent.

## Model

| member | source | states |
|---|---|---|
| JsValues.Truthy | src/util/data-parse.ts:48-50 | `!!v` is false exactly for undefined, null, false, "", NaN and 0, and true for every other value |
| JsValues.IsDef | src/util/data-parse.ts:113 | a value that is not defined (undefined or null) is falsy, and so is neither `false` nor `""`; every truthy value is defined |
| AttrNames.ToLowerCase | src/util/data-parse.ts:61 | the result has the input's length, each character is its lower-case form, and no upper-case letter remains |
| AttrNames.ToDashCase | src/util/data-parse.ts:61 | the result starts with the lower-cased first character, grows by one character per upper-case letter after position 0, and holds no upper-case letter |
| AttrNames.DashTailAppend | src/util/data-parse.ts:61 | dash-casing the tail of a name works piece by piece: the result for a concatenation is the concatenation of the results |
| AttrNames.DashCaseSnoc | src/util/data-parse.ts:61 | fixes where the dashes go: the first character is only lower-cased; each later upper-case letter adds '-' and its lower-case form; any other later character is kept |
| AttrNames.DashCaseOnlyInsertsDashes | src/util/data-parse.ts:61 | with dashes removed, the dash-cased name equals the lower-cased name: dash-casing only inserts separators and lower-cases |
| AttrNames.DerivationsAgreeOnLowerNames | src/util/data-parse.ts:61 | for a name with no upper-case letter, both derivations return the name itself, so the lower-case flag makes no difference |
| AttrNames.DashCaseExample | src/util/data-parse.ts:61 | `myProp` dash-cases to `my-prop` |
| AttrNames.LowerCaseExample | src/util/data-parse.ts:61 | `myProp` lower-cases to `myprop` |
| DataParse.MapSeq | src/util/data-parse.ts:31 | `Array.prototype.map` keeps the length and order: element i of the result is the decoder applied to element i |
| DataParse.ParseListenerData | src/util/data-parse.ts:44-52 | the event and method names are copied; each flag is true exactly when its slot is truthy |
| DataParse.ParseEventData | src/util/data-parse.ts:100-108 | the event and method names are copied; bubbles/cancelable/composed are true exactly when their slots are truthy |
| DataParse.AttribName | src/util/data-parse.ts:61 | the attribute name is the lower-cased name when the flag equals the lower-case constant and the dash-cased name otherwise; it never holds an upper-case letter |
| DataParse.DecodeMember | src/util/data-parse.ts:59-64 | memberType, propType and ctrlTag are copied; attribName is the lower-cased name when the flag equals the lower-case constant and the dash-cased name otherwise; it holds no upper-case letter, and equals the lower-cased name once dashes are removed |
| DataParse.MergeMembers | src/util/data-parse.ts:57-65 | the keys are the old keys plus the names in the tuples; keys not named keep their entry; each named key holds the record of the last tuple naming it |
| DataParse.ParseMembersData | src/util/data-parse.ts:55-67 | an absent member slot leaves the map unchanged; a present one merges its tuples in order |
| DataParse.ParseMembersLoop | src/util/data-parse.ts:56-66 | the index loop, writing one tuple per step, computes exactly the in-order merge |
| DataParse.DefaultMembers | src/util/data-parse.ts:11-18 | the seed holds exactly `mode` and `color`; `mode` observes no attribute and `color` observes attribute `color` |
| DataParse.DecodeRegistryTuple | src/util/data-parse.ts:9-38 | tag, module id, slot and priority are copied; styleIds is slot 2 or the empty map; the members are the `mode`/`color` seed with the member tuples merged in, so the keys are `mode`, `color` and the tuple's names; listenersMeta is unset iff slot 4 is absent and otherwise maps each listener in order; the second-wave fields are unset |
| DataParse.ParseComponentRegistry | src/util/data-parse.ts:7-41 | the returned record is the one stored under the tag; the registry gains exactly that key; every other tag keeps its record |
| DataParse.BindComponent | src/util/data-parse.ts:76-96 | the first-wave fields are unchanged; componentModule is the export for the tag, or undefined; members are merged; hostMeta and the hooks are copied; eventsMeta maps each event in order when slot 3 is present and is otherwise unchanged; isShadowMeta is the truthiness of slot 6 |
| DataParse.ParseComponentMeta | src/util/data-parse.ts:70-97 | fails with UnknownTag exactly when the tag is not registered; otherwise the keys are the same, only the tag's record changes, and it becomes the bound record |
| PropertyValue.ParsePropertyValue | src/util/data-parse.ts:111-129 | undefined/null values and types that are neither boolean nor number pass through unchanged; a boolean type gives a boolean that is false for the string "false", true for any other string including "", and the value's truthiness for non-strings; a number type gives `parseFloat` of the value |
| PropertyValue.BooleanCoercionIsBoolIffDefined | src/util/data-parse.ts:113-117 | for a boolean property, the coercion yields a boolean exactly when the value is defined |
| PropertyValue.BooleanCoercionIdempotent | src/util/data-parse.ts:114-117 | coercing an already coerced boolean value changes nothing |
| PropertyValue.CoercionExamples | src/util/data-parse.ts:111-129 | "false" gives false, "" gives true, "yes" gives true, undefined stays undefined under the number type, and "abc" goes to `parseFloat` |
| DataParseLemmas.LastIndexOf | src/util/data-parse.ts:57-65 | every member name in the tuples has a last tuple that names it |
| DataParseLemmas.MergeMembersIdempotent | src/util/data-parse.ts:55-67 | merging the same member tuples twice gives the same map as merging them once |
| DataParseLemmas.RepeatedMemberLastWins | src/util/data-parse.ts:57-65 | of two tuples naming the same member, only the second one's record remains |
| DataParseLemmas.RegistryWithoutMembersHasOnlyDefaults | src/util/data-parse.ts:9-27 | with no member tuples, the stored record's members are exactly the `mode` and `color` defaults |
| DataParseLemmas.RegistryOverwrite | src/util/data-parse.ts:40 | registering a tag twice leaves the registry the second tuple alone would give, so the first record is discarded |
| DataParseLemmas.RegistryDecodesCommute | src/util/data-parse.ts:40 | registering two different tags gives the same registry in either order |
| DataParseLemmas.BindKeepsUnnamedMember | src/util/data-parse.ts:79 | the secondary decoder keeps every existing member its tuple does not name |
| DataParseLemmas.RegisteredColorIsDefault | src/util/data-parse.ts:17-27 | a new record keeps the default `color` member unless a member tuple redefines it |
| DataParseLemmas.SecondaryAfterRegistry | src/util/data-parse.ts:72-79 | after a tag is registered, the secondary decoder succeeds for it, binds the export, and keeps `mode`, `color` and (unless redefined) the default `color` record |
| DataParseLemmas.SecondaryDecoderIdempotent | src/util/data-parse.ts:70-97 | applying the same second-wave tuple twice has the effect of applying it once |
| DataParseLemmas.EndToEndExample | src/util/data-parse.ts:7-97 | registering `MY-BUTTON` with member `pressed` under the lower-case flag, then binding it, gives a bound module, attribute `pressed`, the defaults and a false shadow flag |
| DataParseLemmas.ShortListenerTupleHasNoFlags | src/util/data-parse.ts:44-52 | a listener tuple with only its two names decodes with every flag false |
| DataParseLemmas.ShortEventTupleHasNoFlags | src/util/data-parse.ts:100-108 | an event tuple with only its two names decodes with every flag false |
| DataParseLemmas.ListenerRoundTrip | src/util/data-parse.ts:44-52 | decoding a listener tuple whose flags are real booleans gives back the record |
| DataParseLemmas.EventRoundTrip | src/util/data-parse.ts:100-108 | decoding an event tuple whose flags are real booleans gives back the record |

## Left out

- `toDashCase` and `isDef` come from `src/util/helpers.ts`, which is not part of this model. `ToDashCase` inserts `-` before every upper-case letter after position 0, then lower-cases. `IsDef` means "neither undefined nor null".
- `ATTR_LOWER_CASE`, `TYPE_BOOLEAN` and `TYPE_NUMBER` come from `src/util/constants.ts`, which is not part of this model. The values used here are placeholders. The proofs rely only on `TypeBoolean != TypeNumber`.
- AttrNames.ToLowerCase: only ASCII letters are lower-cased, because Unicode case mapping is out of scope. The same holds for `ToDashCase`.
- PropertyValue.ParsePropertyValue: the number branch returns an opaque `parseFloat` result, passed in as a parameter. JavaScript float parsing (the `3.14` and NaN cases) is not modelled.
- Infinities and the full JavaScript value space (symbols, bigints, functions) are not modelled. Objects are opaque references, and all are truthy.
- RegistryTuple and ComponentMetaTuple: the tag name is always a string. In the source, a registry tuple with an undefined tag stores its record under the key "undefined", and the model cannot express that tuple.
- Tuple slots have fixed types. A short tuple is modelled only through its optional slots, and the name slots of listener and event tuples are always strings.
- Object identity is not modelled. In the source, the record returned by `parseComponentRegistry` and the record later mutated by `parseComponentMeta` are the same object. The model uses values, so it does not model that aliasing.
- JavaScript property-key quirks such as `__proto__` as a member or tag name are not modelled.
- Registry entries stored with the value `undefined` are not modelled: a key is either absent or holds a record.
