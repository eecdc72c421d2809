/**
 * `DocumentSerializer`: the facade that builds the JSON serializer settings
 * for a database and hands parsing to the document parser. Modelled here:
 * the ordered converter list of the `SerializerSetting` getter, and how the
 * single-result path picks its value from the batch parse.
 */
module DocumentSerializer {

  /**
   * A JSON converter, by identity only: the three built-ins, the string form
   * of enumerations, and any converter the caller registers.
   */
  datatype Converter = DateTime | QueryParameter | EnumValue | StringEnum | User(id: nat)

  /** What the getter reads from `db.Setting.Serialization`. */
  datatype SerializationSetting = SerializationSetting(
    converters: seq<Converter>,
    serializeEnumAsInteger: bool)

  /** The converters every serializer gets first, in this order. */
  const BuiltIns: seq<Converter> := [DateTime, QueryParameter, EnumValue]

  /** The converter list the settings carry, as a value. */
  function ConverterList(setting: SerializationSetting): seq<Converter> {
    BuiltIns + setting.converters + (if setting.serializeEnumAsInteger then [] else [StringEnum])
  }

  /**
   * The converter part of the `SerializerSetting` getter: a list of the
   * built-ins joined with the caller's converters, to which the string-enum
   * converter is then added when enumerations are not written as integers.
   */
  method SerializerConverters(setting: SerializationSetting) returns (converters: seq<Converter>)
    ensures converters == ConverterList(setting)
  {
    converters := BuiltIns + setting.converters;
    if setting.serializeEnumAsInteger == false {
      converters := converters + [StringEnum];
    }
  }

  /** The list starts with the three built-ins, then the caller's converters in their order. */
  lemma ConverterListOrder(setting: SerializationSetting)
    ensures |ConverterList(setting)| >= 3 + |setting.converters|
    ensures ConverterList(setting)[0] == DateTime
    ensures ConverterList(setting)[1] == QueryParameter
    ensures ConverterList(setting)[2] == EnumValue
    ensures forall k :: 0 <= k < |setting.converters| ==> ConverterList(setting)[3 + k] == setting.converters[k]
  {
  }

  /** One more converter than the built-ins and the caller's exactly when enums are strings. */
  lemma ConverterListLength(setting: SerializationSetting)
    ensures |ConverterList(setting)| == 3 + |setting.converters| + (if setting.serializeEnumAsInteger then 0 else 1)
  {
  }

  /**
   * With enums as strings the last converter is `StringEnum`, so every
   * converter the caller registered comes before it; with enums as integers
   * nothing follows the caller's converters.
   */
  lemma StringEnumComesLast(setting: SerializationSetting)
    ensures !setting.serializeEnumAsInteger ==>
              ConverterList(setting)[|ConverterList(setting)| - 1] == StringEnum
    ensures setting.serializeEnumAsInteger ==>
              ConverterList(setting) == BuiltIns + setting.converters
  {
  }

  /** The getter adds exactly one `StringEnum` to those the caller registered, or none. */
  lemma StringEnumCount(setting: SerializationSetting)
    ensures multiset(ConverterList(setting))[StringEnum]
         == multiset(setting.converters)[StringEnum] + (if setting.serializeEnumAsInteger then 0 else 1)
  {
  }

  /**
   * When the caller registered no `StringEnum` of their own, `StringEnum` is in
   * the list if and only if enumerations are not written as integers, and then
   * only in the last position.
   */
  lemma StringEnumIffNotInteger(setting: SerializationSetting)
    requires StringEnum !in setting.converters
    ensures StringEnum in ConverterList(setting) <==> !setting.serializeEnumAsInteger
    ensures forall k :: 0 <= k < |ConverterList(setting)| - 1 ==> ConverterList(setting)[k] != StringEnum
  {
  }

  /** `Enumerable.FirstOrDefault`: the first item, or `default(T)` (passed in) for an empty list. */
  function FirstOrDefault<T>(items: seq<T>, default: T): (r: T)
    ensures r == default || r in items
    ensures |items| > 0 ==> r == items[0]
    ensures |items| == 0 ==> r == default
  {
    if |items| > 0 then items[0] else default
  }

  /**
   * `DeserializeBatchResult(Stream, out BaseResult)`: the items the document
   * parser read from the stream, and its `BaseResult`, both handed back as they are.
   */
  function DeserializeBatchResult<T, B>(parsed: seq<T>, baseResult: B): (r: (seq<T>, B))
    ensures r.0 == parsed && r.1 == baseResult
  {
    (parsed, baseResult)
  }

  /**
   * `DeserializeSingleResult(Stream, out BaseResult)`: runs the same batch parse
   * and keeps only its first item.
   */
  function DeserializeSingleResult<T, B>(parsed: seq<T>, baseResult: B, default: T): (r: (T, B))
    ensures r.1 == baseResult
    ensures |parsed| > 0 ==> r.0 == parsed[0]
    ensures |parsed| == 0 ==> r.0 == default
  {
    var batch := DeserializeBatchResult(parsed, baseResult);
    (FirstOrDefault(batch.0, default), batch.1)
  }

  /**
   * The single-result path yields the first item of the batch path's list, or
   * the default when that list is empty, and the same `BaseResult`.
   */
  lemma SingleResultIsFirstOfBatch<T, B>(parsed: seq<T>, baseResult: B, default: T)
    ensures var batch := DeserializeBatchResult(parsed, baseResult);
            var single := DeserializeSingleResult(parsed, baseResult, default);
            && single.1 == batch.1
            && (|batch.0| > 0 ==> single.0 == batch.0[0])
            && (|batch.0| == 0 ==> single.0 == default)
  {
  }

  /** Only the first parsed item matters: whatever follows it is discarded. */
  lemma SingleResultIgnoresRest<T, B>(first: T, rest: seq<T>, baseResult: B, default: T)
    ensures DeserializeSingleResult([first] + rest, baseResult, default) == (first, baseResult)
  {
  }
}
