/**
 * `StripAssemblyNameBinder.BindToName`: a serialization binder that asks an
 * inner binder for the (assembly name, type name) pair of a type and then
 * cuts the type name at its first comma before the name is written into a
 * `$type` hint. For a plain qualified name that drops the assembly part; for
 * a generic name the first comma may lie inside the type-argument list, and
 * the cut then drops the rest of that list too. The inner binder's answer is
 * an input here.
 */
module Binder {
  import opened Wrappers
  import opened Text

  /** A type name containing this text is dropped altogether. */
  const DictionaryMarker: string := "Dictionary"

  /** Everything from the first occurrence of this text on is cut off. */
  const Separator: string := ","

  /**
   * The type name the binder hands on, given the inner binder's type name
   * (None for null): null for dictionary names, the part before the first
   * comma for qualified names, the name itself otherwise.
   */
  function StripTypeName(typeName: Option<string>): (r: Option<string>)
    ensures r.Some? ==> typeName.Some? && r.value <= typeName.value
    ensures r.Some? ==> !Contains(r.value, Separator) && !Contains(r.value, DictionaryMarker)
  {
    match typeName
    case None => None
    case Some(t) =>
      if Contains(t, DictionaryMarker) then
        None
      else if Contains(t, Separator) then
        var prefix := t[..IndexOf(t, Separator)];
        PrefixKeepsAbsence(t, IndexOf(t, Separator), DictionaryMarker);
        PrefixBeforeFirstOccurrence(t, Separator);
        Some(prefix)
      else
        Some(t)
  }

  /**
   * `BindToName`: takes the inner binder's out-parameters and reassigns them
   * step by step. The assembly name always comes out null.
   */
  method BindToName(innerAssemblyName: Option<string>, innerTypeName: Option<string>)
    returns (assemblyName: Option<string>, typeName: Option<string>)
    ensures assemblyName == None
    ensures typeName == StripTypeName(innerTypeName)
  {
    assemblyName, typeName := innerAssemblyName, innerTypeName;
    if typeName.Some? && Contains(typeName.value, DictionaryMarker) {
      typeName := None;
    } else if typeName.Some? && Contains(typeName.value, Separator) {
      typeName := Some(typeName.value[..IndexOf(typeName.value, Separator)]);
    }
    assemblyName := None;
  }

  /** A null type name stays null. */
  lemma NullStaysNull()
    ensures StripTypeName(None) == None
  {
  }

  /** Any occurrence of "Dictionary" in the name makes the output null. */
  lemma DictionaryIsDropped(t: string, i: int)
    requires OccursAt(t, DictionaryMarker, i)
    ensures StripTypeName(Some(t)) == None
  {
  }

  /**
   * A name without "Dictionary" whose first comma is at index `k` comes out
   * as exactly its first `k` characters, which hold no comma.
   */
  lemma QualifiedNameIsCut(t: string, k: int)
    requires !Contains(t, DictionaryMarker)
    requires OccursAt(t, Separator, k)
    requires forall j :: 0 <= j < k ==> !OccursAt(t, Separator, j)
    ensures StripTypeName(Some(t)) == Some(t[..k])
    ensures !Contains(t[..k], Separator)
  {
    assert IndexOf(t, Separator) == k;
  }

  /** A name holding neither "Dictionary" nor a comma passes through unchanged. */
  lemma PlainNameIsKept(t: string)
    requires forall i :: !OccursAt(t, DictionaryMarker, i)
    requires forall i :: !OccursAt(t, Separator, i)
    ensures StripTypeName(Some(t)) == Some(t)
  {
  }

  /** Stripping an already stripped name changes nothing. */
  lemma StripIsIdempotent(typeName: Option<string>)
    ensures StripTypeName(StripTypeName(typeName)) == StripTypeName(typeName)
  {
  }

  /**
   * For a generic type name whose first type argument is qualified, the first
   * comma lies inside the type-argument list, so the cut keeps only the name
   * and the start of that first argument.
   */
  lemma GenericNameIsCutInsideArguments(name: string, arg: string, rest: string)
    requires ',' !in name && ',' !in arg
    requires !Contains(name + "[[" + arg + "," + rest, DictionaryMarker)
    ensures StripTypeName(Some(name + "[[" + arg + "," + rest)) == Some(name + "[[" + arg)
  {
    var t := name + "[[" + arg + "," + rest;
    var k := |name| + 2 + |arg|;
    assert t[k..k + 1] == Separator;
    forall j | 0 <= j < k
      ensures !OccursAt(t, Separator, j)
    {
      assert t[j..j + 1] == [t[j]];
      if j < |name| {
        assert t[j] == name[j];
      } else if j < |name| + 2 {
        assert t[j] == '[';
      } else {
        assert t[j] == arg[j - |name| - 2];
      }
    }
    QualifiedNameIsCut(t, k);
    assert t[..k] == name + "[[" + arg;
  }
}
