# ArangoDB client document serializer — Dafny model

This project models the parts of `DocumentSerializer.cs` in the ArangoDB .NET
client that hold logic of their own, rather than calls into Newtonsoft.Json:

- **`StripAssemblyNameBinder.BindToName`**: a serialization binder. It asks an
  inner binder for the assembly name and type name of a type. It drops a type
  name that mentions `Dictionary`. It cuts any other type name at its first
  comma. For a plain qualified name this removes the assembly part. For a
  generic name the first comma may lie inside the type-argument list, and
  then the rest of that list is cut off too. It always clears the
  assembly name. Null is modelled as `Option.None`. The inner binder's answer
  is an input.
- **The converter list of the `SerializerSetting` getter**: the built-in
  `DateTimeConverter`, `QueryParameterConverter` and `EnumValueConverter`
  come first, in that order. The caller's configured converters follow, in
  their order. `StringEnumConverter` is appended last when
  `SerializeEnumAsInteger` is false. Converters are opaque tags.
- **The single-result path `DeserializeSingleResult(Stream, out BaseResult)`**:
  it runs the batch parse and keeps the first item, or `default(T)` when the
  batch is empty. The parser's output is an input.

Files:

- `wrappers.dfy`: `Option`, standing for a nullable reference.
- `text.dfy`: the `String.Contains`, `String.IndexOf` and prefix `Substring`
  that the binder uses, specified against "occurs at index i". `Contains`
  compares ordinally in .NET. `IndexOf(string)` compares with the current
  culture in .NET, and the model compares it ordinally. .NET strings are
  UTF-16 code units. A Dafny `char` is a Unicode scalar value, so indices
  count scalar values and a lone surrogate cannot be represented. The text
  before the first comma is the same in both views for every name the model
  can represent.
- `binder.dfy`: the binder.
- `serializer.dfy`: the converter list and the single/batch result paths.

`DocumentSerializer` is not modelled as a class. Its only field, `db`, is
never reassigned. The getter reads the database's serialization settings,
which are an input here. The list that the getter builds and then appends to
is a local sequence in the method `SerializerConverters`. That method is
proved equal to the function `ConverterList`, and the lemmas are about that
function.

## Model

| member | source | states |
|---|---|---|
| Text.IndexOf | src/ArangoDB.Client/Serialization/DocumentSerializer.cs:36 | the result is the first index at which the text occurs, or -1 exactly when it occurs nowhere |
| Text.Contains | src/ArangoDB.Client/Serialization/DocumentSerializer.cs:30-34 | true exactly when the text occurs at some index |
| Text.PrefixBeforeFirstOccurrence | src/ArangoDB.Client/Serialization/DocumentSerializer.cs:36 | the part before the first occurrence of a non-empty text does not contain that text |
| Binder.StripTypeName | src/ArangoDB.Client/Serialization/DocumentSerializer.cs:30-37 | a non-null output is a prefix of a non-null input and contains neither a comma nor "Dictionary" |
| Binder.BindToName | src/ArangoDB.Client/Serialization/DocumentSerializer.cs:27-40 | the assembly name comes out null whatever the inner binder gave; the type name is the stripped inner type name |
| Binder.NullStaysNull | src/ArangoDB.Client/Serialization/DocumentSerializer.cs:30-34 | a null type name stays null |
| Binder.DictionaryIsDropped | src/ArangoDB.Client/Serialization/DocumentSerializer.cs:30-33 | a type name containing "Dictionary" anywhere becomes null |
| Binder.QualifiedNameIsCut | src/ArangoDB.Client/Serialization/DocumentSerializer.cs:34-37 | without "Dictionary", a name whose first comma is at index k becomes exactly its first k characters, which hold no comma |
| Binder.PlainNameIsKept | src/ArangoDB.Client/Serialization/DocumentSerializer.cs:30-37 | a name holding neither "Dictionary" nor a comma is returned unchanged |
| Binder.GenericNameIsCutInsideArguments | src/ArangoDB.Client/Serialization/DocumentSerializer.cs:34-36 | for any name of the form `name[[arg,rest` with no comma in `name` or `arg` and no "Dictionary" anywhere, the result is `name[[arg`: the first comma lies inside the type-argument list, and the rest of that list is dropped |
| Binder.StripIsIdempotent | src/ArangoDB.Client/Serialization/DocumentSerializer.cs:30-37 | stripping an already stripped type name changes nothing |
| DocumentSerializer.SerializerConverters | src/ArangoDB.Client/Serialization/DocumentSerializer.cs:122-130 | the list built and appended to in place equals the converter list of the settings |
| DocumentSerializer.ConverterListOrder | src/ArangoDB.Client/Serialization/DocumentSerializer.cs:122-127 | the list begins with DateTime, QueryParameter, EnumValue, followed by the caller's converters in their configured order |
| DocumentSerializer.ConverterListLength | src/ArangoDB.Client/Serialization/DocumentSerializer.cs:122-130 | the length is 3 plus the number of caller converters, plus 1 when enums are not integers |
| DocumentSerializer.StringEnumComesLast | src/ArangoDB.Client/Serialization/DocumentSerializer.cs:129-130 | with enums as strings the last converter is StringEnum; with enums as integers the list is the built-ins then the caller's converters |
| DocumentSerializer.StringEnumCount | src/ArangoDB.Client/Serialization/DocumentSerializer.cs:129-130 | the list holds exactly one more StringEnum than the caller registered when enums are strings, and none more otherwise |
| DocumentSerializer.StringEnumIffNotInteger | src/ArangoDB.Client/Serialization/DocumentSerializer.cs:129-130 | if the caller registered no StringEnum, StringEnum is present if and only if enums are not integers, and never before the last position |
| DocumentSerializer.FirstOrDefault | src/ArangoDB.Client/Serialization/DocumentSerializer.cs:91 | a non-empty list yields its first item and an empty list yields the default |
| DocumentSerializer.DeserializeBatchResult | src/ArangoDB.Client/Serialization/DocumentSerializer.cs:75-83 | hands back the parsed items and the BaseResult unchanged; it stands in for the ParseBatchResult call, which is not part of this model |
| DocumentSerializer.DeserializeSingleResult | src/ArangoDB.Client/Serialization/DocumentSerializer.cs:85-93 | yields the first parsed item, or the default when nothing was parsed, together with the parser's BaseResult |
| DocumentSerializer.SingleResultIsFirstOfBatch | src/ArangoDB.Client/Serialization/DocumentSerializer.cs:75-93 | the single-result path gives the first item of the batch path's list, or the default when it is empty, and the same BaseResult |
| DocumentSerializer.SingleResultIgnoresRest | src/ArangoDB.Client/Serialization/DocumentSerializer.cs:91 | whatever follows the first parsed item is discarded |

## Left out

- Text.IndexOf: `String.IndexOf(string)` compares with the current culture in .NET; the model compares ordinally, character by character. For the plain comma searched here, the two agree unless the name holds characters that the culture's comparison ignores or combines. Where they disagree, `Contains(",")` can be true while `IndexOf(",")` returns -1. `Substring(0, -1)` then throws `ArgumentOutOfRangeException`. The model has no such error path: it always cuts at the first comma.
- `StripAssemblyNameBinder.BindToType` and the inner binder's own `BindToName`: pure delegation to Newtonsoft's default binder. The inner binder's output is an input.
- The binder is compiled only for .NET Standard 2.0, and it is not installed in the settings because the line that would install it is commented out. It is modelled on its own.
- Any allow-list or fail-closed check on type names. The code has none: "Dictionary" is a plain substring test and nothing is rejected.
- All Newtonsoft.Json calls: creating the serializer, `Deserialize<T>`, `JObject.FromObject`, `SerializeObject` and `DeserializeObject`. This is a library whose code is not part of this model.
- Stream and reader construction and their disposal: I/O.
- `DocumentParser.ParseBatchResult`, `ParseSingleResult` and `DocumentContractResolver.GetContractResolver` are not part of this model. The parsed list and the `BaseResult` are inputs.
- The other `DeserializeSingleResult` overloads, which return `T` and hand out a `JObject` through an `out` parameter, only call `ParseSingleResult`, which is not part of this model.
- The bodies of the converters, and the order in which Newtonsoft consults them. Converters are opaque tags, so only their order in the list is modelled.
- The other settings: `DateParseHandling.None`, `TypeNameHandling.Auto` and the `MetadataPropertyHandling` passed through from the database settings. They are values handed to the library.
- DocumentSerializer.FirstOrDefault: `default(T)` has no Dafny counterpart, so the caller passes it in.
