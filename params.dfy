/**
 * ParamInfo (parametersystem.hpp) and its operator== (parametersystem.cpp),
 * and the `=TYPE` tag printParamUsage shows for a parameter's type name.
 */
module Params {

  /** What the registry keeps about one parameter. */
  datatype ParamInfo = ParamInfo(
    paramName: string,
    paramTypeName: string,
    typeTagName: string,
    usageString: string,
    defaultValue: string,
    isHidden: bool)

  /** The ParamInfo a `std::map::operator[]` lookup inserts for a missing name: all texts empty, not hidden. */
  function Blank(): ParamInfo { ParamInfo("", "", "", "", "", false) }

  /** ParamInfo::operator==: name, type name, type tag and usage text, but neither the default nor the hidden flag. */
  predicate Same(a: ParamInfo, b: ParamInfo)
  {
    b.paramName == a.paramName && b.paramTypeName == a.paramTypeName
    && b.typeTagName == a.typeTagName && b.usageString == a.usageString
  }

  /** Changing the default or the hidden flag never makes two descriptions differ. */
  lemma SameIgnoresDefaultAndHidden(a: ParamInfo, d: string, h: bool)
    ensures Same(a, a.(defaultValue := d, isHidden := h))
  {
  }

  /** Two descriptions are the same exactly when they agree once default and hidden flag are equalized. */
  lemma SameExactly(a: ParamInfo, b: ParamInfo)
    ensures Same(a, b) <==> a.(defaultValue := b.defaultValue, isHidden := b.isHidden) == b
  {
  }

  lemma SameEquivalence(a: ParamInfo, b: ParamInfo, c: ParamInfo)
    ensures Same(a, a)
    ensures Same(a, b) ==> Same(b, a)
    ensures Same(a, b) && Same(b, c) ==> Same(a, c)
  {
  }

  /**
   * The type names printParamUsage compares against, as `Dune::className<T>()`
   * spells them (string; float, double, long double, quad; int, unsigned int,
   * short, unsigned short; bool).
   */
  datatype TypeNames = TypeNames(stringName: string, scalarNames: set<string>, integerNames: set<string>, boolName: string)

  /** Whether printParamUsage quotes the default: a std::string or a `const char *` parameter. */
  predicate IsStringType(typeName: string, names: TypeNames)
  {
    typeName == names.stringName || typeName == "const char *"
  }

  /** The `=TYPE` part of a usage line; nothing for an empty type name (a flag), VALUE for an unknown one. */
  function TypeTag(typeName: string, names: TypeNames): (r: string)
    ensures r == "" <==> (typeName == "" && !IsStringType(typeName, names)
      && typeName !in names.scalarNames && typeName !in names.integerNames && typeName != names.boolName)
    ensures r != "" ==> r[0] == '='
    ensures typeName != "" ==> r != ""
  {
    if IsStringType(typeName, names) then "=STRING"
    else if typeName in names.scalarNames then "=SCALAR"
    else if typeName in names.integerNames then "=INTEGER"
    else if typeName == names.boolName then "=BOOLEAN"
    else if typeName == "" then ""
    else "=VALUE"
  }
}
