/**
 * The registry of run-time parameters (MetaData and its Storage_ in
 * parametersystem.hpp, reset and endRegistration in parametersystem.cpp).
 *
 * One object holds what the C++ keeps in a function-local static: the map
 * from parameter names to their descriptions, the list of finalizers (one
 * per Register call, each re-reading its parameter when registration ends),
 * whether registration is still open, and the tree of values given at run
 * time. Every operation that throws in C++ returns a `Thrown` outcome here.
 */
module Registry {
  import opened Outcomes
  import opened Params
  import opened ParamTree

  /**
   * How Get<T> obtains a T: from the registered default text (`from_chars`,
   * `strtod`, or the text itself), and from a text found in the tree (the
   * tree's typed `get<T>`, which may reject the text).
   */
  datatype Conversion<T> = Conversion(fromDefault: string -> T, fromText: string -> Option<T>)

  function StringConversion(): Conversion<string>
  {
    Conversion(d => d, t => Some(t))
  }

  /** For bool the default is true exactly when its text is "1". */
  function BoolConversion(fromText: string -> Option<bool>): Conversion<bool>
  {
    Conversion(d => d == "1", fromText)
  }

  /** What Get<T> yields for a name whose registry entry has default text `defaultText`: the tree's value wins. */
  function Resolve<T>(name: string, defaultText: string, tree: Tree, conv: Conversion<T>): (r: Outcome<T>)
    ensures !HasKey(tree, name) ==> r == Ok(conv.fromDefault(defaultText))
    ensures HasKey(tree, name) ==> (r.Ok? <==> conv.fromText(Lookup(tree, name).value).Some?)
    ensures HasKey(tree, name) && r.Ok? ==> r.value == conv.fromText(Lookup(tree, name).value).value
    ensures r.Thrown? ==> r.error == Unconvertible(name, Lookup(tree, name).value)
  {
    match Lookup(tree, name)
    case None => Ok(conv.fromDefault(defaultText))
    case Some(text) =>
      match conv.fromText(text)
      case Some(v) => Ok(v)
      case None => Thrown(Unconvertible(name, text))
  }

  lemma ResolveString(name: string, defaultText: string, tree: Tree)
    ensures Resolve(name, defaultText, tree, StringConversion()) == Ok(GetOr(tree, name, defaultText))
  {
  }

  lemma ResolveBoolDefault(name: string, defaultText: string, tree: Tree, fromText: string -> Option<bool>)
    requires !HasKey(tree, name)
    ensures Resolve(name, defaultText, tree, BoolConversion(fromText)) == Ok(defaultText == "1")
  {
  }

  /** The check a finalizer makes: the parameter is registered and a text given for it converts. */
  predicate FinalizerPasses(name: string, registry: map<string, ParamInfo>, tree: Tree, accepts: (string, string) -> bool)
  {
    name in registry && (HasKey(tree, name) ==> accepts(name, Lookup(tree, name).value))
  }

  /** Running the finalizers in order; the first that fails throws what its Get<T> throws. */
  function RunFinalizers(names: seq<string>, registry: map<string, ParamInfo>, tree: Tree, accepts: (string, string) -> bool): (r: Outcome<()>)
  {
    if names == [] then Ok(())
    else if names[0] !in registry then Thrown(NotRegistered(names[0]))
    else if HasKey(tree, names[0]) && !accepts(names[0], Lookup(tree, names[0]).value) then
      Thrown(Unconvertible(names[0], Lookup(tree, names[0]).value))
    else RunFinalizers(names[1..], registry, tree, accepts)
  }

  /** When every finalizer's name is registered, only a text that does not convert can make closing registration fail. */
  lemma {:induction false} RunFinalizersRegistered(names: seq<string>, registry: map<string, ParamInfo>, tree: Tree, accepts: (string, string) -> bool)
    requires forall i :: 0 <= i < |names| ==> names[i] in registry
    ensures RunFinalizers(names, registry, tree, accepts).Thrown? ==> RunFinalizers(names, registry, tree, accepts).error.Unconvertible?
  {
    if names != [] {
      assert forall i :: 0 <= i < |names[1..]| ==> names[1..][i] == names[i + 1];
      RunFinalizersRegistered(names[1..], registry, tree, accepts);
    }
  }

  /** Closing registration succeeds exactly when every finalizer passes; otherwise the first failing one is reported. */
  lemma {:induction false} RunFinalizersOk(names: seq<string>, registry: map<string, ParamInfo>, tree: Tree, accepts: (string, string) -> bool)
    ensures RunFinalizers(names, registry, tree, accepts).Ok?
      <==> forall i :: 0 <= i < |names| ==> FinalizerPasses(names[i], registry, tree, accepts)
    ensures RunFinalizers(names, registry, tree, accepts).Thrown? ==>
      exists i :: 0 <= i < |names| && !FinalizerPasses(names[i], registry, tree, accepts)
        && (forall j :: 0 <= j < i ==> FinalizerPasses(names[j], registry, tree, accepts))
        && RunFinalizers(names, registry, tree, accepts).error
           == (if names[i] !in registry then NotRegistered(names[i]) else Unconvertible(names[i], Lookup(tree, names[i]).value))
  {
    if names != [] {
      RunFinalizersOk(names[1..], registry, tree, accepts);
      var r := RunFinalizers(names, registry, tree, accepts);
      if FinalizerPasses(names[0], registry, tree, accepts) {
        assert r == RunFinalizers(names[1..], registry, tree, accepts);
        forall i | 1 <= i < |names| ensures names[i] == names[1..][i - 1] { }
        if r.Thrown? {
          var i :| 0 <= i < |names[1..]| && !FinalizerPasses(names[1..][i], registry, tree, accepts)
            && (forall j :: 0 <= j < i ==> FinalizerPasses(names[1..][j], registry, tree, accepts))
            && r.error == (if names[1..][i] !in registry then NotRegistered(names[1..][i]) else Unconvertible(names[1..][i], Lookup(tree, names[1..][i]).value));
          assert forall j :: 1 <= j < i + 1 ==> names[j] == names[1..][j - 1];
          assert !FinalizerPasses(names[i + 1], registry, tree, accepts);
        }
      } else {
        assert !FinalizerPasses(names[0], registry, tree, accepts);
      }
    }
  }

  /** The flattened keys that have a registry entry, in order. */
  function Registered(keys: seq<string>, registry: map<string, ParamInfo>): seq<string>
  {
    if keys == [] then []
    else (if keys[0] in registry then [keys[0]] else []) + Registered(keys[1..], registry)
  }

  /** The flattened keys that have none, in order. */
  function Unregistered(keys: seq<string>, registry: map<string, ParamInfo>): seq<string>
  {
    if keys == [] then []
    else (if keys[0] in registry then [] else [keys[0]]) + Unregistered(keys[1..], registry)
  }

  /** Every key lands in exactly one of the two lists, and together they are the keys again. */
  lemma PartitionKeys(keys: seq<string>, registry: map<string, ParamInfo>)
    ensures multiset(Registered(keys, registry)) + multiset(Unregistered(keys, registry)) == multiset(keys)
    ensures forall k :: k in Registered(keys, registry) <==> k in keys && k in registry
    ensures forall k :: k in Unregistered(keys, registry) <==> k in keys && k !in registry
  {
    PartitionCounts(keys, registry);
    RegisteredMembers(keys, registry);
    UnregisteredMembers(keys, registry);
  }

  lemma {:induction false} PartitionCounts(keys: seq<string>, registry: map<string, ParamInfo>)
    ensures multiset(Registered(keys, registry)) + multiset(Unregistered(keys, registry)) == multiset(keys)
  {
    if keys != [] {
      PartitionCounts(keys[1..], registry);
      assert keys == [keys[0]] + keys[1..];
    }
  }

  lemma {:induction false} RegisteredMembers(keys: seq<string>, registry: map<string, ParamInfo>)
    ensures forall k :: k in Registered(keys, registry) <==> k in keys && k in registry
  {
    if keys != [] {
      RegisteredMembers(keys[1..], registry);
      assert keys == [keys[0]] + keys[1..];
    }
  }

  lemma {:induction false} UnregisteredMembers(keys: seq<string>, registry: map<string, ParamInfo>)
    ensures forall k :: k in Unregistered(keys, registry) <==> k in keys && k !in registry
  {
    if keys != [] {
      UnregisteredMembers(keys[1..], registry);
      assert keys == [keys[0]] + keys[1..];
    }
  }

  /** Each key with the tree's text for it (`tree[key]`). */
  function WithValues(keys: seq<string>, tree: Tree): (r: seq<(string, string)>)
    ensures |r| == |keys|
    ensures forall k :: 0 <= k < |keys| ==> r[k] == (keys[k], GetOr(tree, keys[k], ""))
  {
    if keys == [] then [] else [(keys[0], GetOr(tree, keys[0], ""))] + WithValues(keys[1..], tree)
  }

  lemma RegisteredStep(keys: seq<string>, i: nat, registry: map<string, ParamInfo>)
    requires i < |keys|
    ensures Registered(keys[..i + 1], registry) == Registered(keys[..i], registry) + (if keys[i] in registry then [keys[i]] else [])
    ensures Unregistered(keys[..i + 1], registry) == Unregistered(keys[..i], registry) + (if keys[i] in registry then [] else [keys[i]])
    decreases i
  {
    if i > 0 {
      RegisteredStep(keys[1..], i - 1, registry);
      assert keys[..i + 1][1..] == keys[1..][..i];
      assert keys[..i][1..] == keys[1..][..i - 1];
    }
  }

  lemma WithValuesAppend(a: seq<string>, b: seq<string>, tree: Tree)
    ensures WithValues(a + b, tree) == WithValues(a, tree) + WithValues(b, tree)
  {
  }

  /** The loop of getLists: each key with its text, to the used list when registered, else to the unused list. */
  method SplitByRegistration(keys: seq<string>, registry: map<string, ParamInfo>, tree: Tree)
    returns (used: seq<(string, string)>, unused: seq<(string, string)>)
    ensures used == WithValues(Registered(keys, registry), tree)
    ensures unused == WithValues(Unregistered(keys, registry), tree)
  {
    used, unused := [], [];
    var i := 0;
    while i < |keys|
      invariant 0 <= i <= |keys|
      invariant used == WithValues(Registered(keys[..i], registry), tree)
      invariant unused == WithValues(Unregistered(keys[..i], registry), tree)
    {
      RegisteredStep(keys, i, registry);
      var key := keys[i];
      if key in registry {
        WithValuesAppend(Registered(keys[..i], registry), [key], tree);
        used := used + [(key, GetOr(tree, key, ""))];
      } else {
        WithValuesAppend(Unregistered(keys[..i], registry), [key], tree);
        unused := unused + [(key, GetOr(tree, key, ""))];
      }
      i := i + 1;
    }
    assert keys[..i] == keys;
  }

  /** The registry object: MetaData's storage. */
  class ParameterSystem {
    var registry: map<string, ParamInfo>
    var finalizers: seq<string>
    var registrationOpen: bool
    var tree: Tree

    /** Storage_(): an empty registry, no finalizers, a fresh tree, registration open. */
    constructor ()
      ensures registry == map[] && finalizers == [] && registrationOpen && tree == Empty()
    {
      registry := map[];
      finalizers := [];
      registrationOpen := true;
      tree := Empty();
    }

    /** Every finalizer belongs to a registered parameter: what makes endRegistration's lookups succeed. */
    predicate FinalizersRegistered()
      reads this
    {
      forall i :: 0 <= i < |finalizers| ==> finalizers[i] in registry
    }

    /** MetaData::clear */
    method Clear()
      modifies this
      ensures registry == map[] && finalizers == [] && registrationOpen && tree == Empty()
    {
      tree := Empty();
      finalizers := [];
      registrationOpen := true;
      registry := map[];
    }

    /** reset */
    method Reset()
      modifies this
      ensures registry == map[] && finalizers == [] && registrationOpen && tree == Empty()
    {
      Clear();
    }

    /**
     * Register<Param>(usage): refused once registration is closed. The
     * finalizer is queued before the duplicate check, so it is queued for a
     * repeated and for a conflicting registration too. A repeat with the same
     * name, type and usage keeps the first entry; another description throws.
     */
    method Register(paramName: string, paramTypeName: string, usageString: string, defaultValue: string) returns (r: Outcome<()>)
      modifies this
      ensures tree == old(tree) && registrationOpen == old(registrationOpen)
      ensures !old(registrationOpen) ==>
        r == Thrown(RegisteredAfterClose(paramName)) && registry == old(registry) && finalizers == old(finalizers)
      ensures old(registrationOpen) ==> finalizers == old(finalizers) + [paramName] && paramName in registry
      ensures old(registrationOpen) && paramName in old(registry) ==>
        registry == old(registry)
        && r == if Same(old(registry)[paramName], ParamInfo(paramName, paramTypeName, "", usageString, defaultValue, false))
                then Ok(()) else Thrown(ConflictingRegistration(paramName))
      ensures old(registrationOpen) && paramName !in old(registry) ==>
        registry == old(registry)[paramName := ParamInfo(paramName, paramTypeName, "", usageString, defaultValue, false)]
        && r == Ok(())
      ensures old(FinalizersRegistered()) ==> FinalizersRegistered()
    {
      if !registrationOpen {
        return Thrown(RegisteredAfterClose(paramName));
      }
      finalizers := finalizers + [paramName];
      var info := ParamInfo(paramName, paramTypeName, "", usageString, defaultValue, false);
      if paramName in registry {
        if Same(registry[paramName], info) {
          return Ok(());
        }
        return Thrown(ConflictingRegistration(paramName));
      }
      registry := registry[paramName := info];
      r := Ok(());
    }

    /** Hide<Param>(): only while registration is open, only for a registered name; sets the hidden flag alone. */
    method Hide(paramName: string) returns (r: Outcome<()>)
      modifies this`registry
      ensures !old(registrationOpen) ==> r == Thrown(HiddenAfterClose(paramName)) && registry == old(registry)
      ensures old(registrationOpen) && paramName !in old(registry) ==> r == Thrown(HiddenUnknown(paramName)) && registry == old(registry)
      ensures old(registrationOpen) && paramName in old(registry) ==>
        r == Ok(()) && registry == old(registry)[paramName := old(registry)[paramName].(isHidden := true)]
      ensures old(FinalizersRegistered()) ==> FinalizersRegistered()
    {
      if !registrationOpen {
        return Thrown(HiddenAfterClose(paramName));
      }
      if paramName !in registry {
        return Thrown(HiddenUnknown(paramName));
      }
      registry := registry[paramName := registry[paramName].(isHidden := true)];
      r := Ok(());
    }

    /** SetDefault<Param>(text), text being the new value as `operator<<` prints it: any time, for a registered name. */
    method SetDefault(paramName: string, text: string) returns (r: Outcome<()>)
      modifies this`registry
      ensures paramName !in old(registry) ==> r == Thrown(NotRegistered(paramName)) && registry == old(registry)
      ensures paramName in old(registry) ==>
        r == Ok(()) && registry == old(registry)[paramName := old(registry)[paramName].(defaultValue := text)]
      ensures old(FinalizersRegistered()) ==> FinalizersRegistered()
    {
      if paramName !in registry {
        return Thrown(NotRegistered(paramName));
      }
      registry := registry[paramName := registry[paramName].(defaultValue := text)];
      r := Ok(());
    }

    /**
     * Get<Param>(errorIfNotRegistered). With the check, only after
     * registration and only for registered names. The default is read with
     * `mutableRegistry()[name]`, which inserts a blank entry for a name that
     * is not registered; a value in the tree overrides the default.
     */
    method Get<T>(paramName: string, errorIfNotRegistered: bool, conv: Conversion<T>) returns (r: Outcome<T>)
      modifies this`registry
      ensures errorIfNotRegistered && registrationOpen ==> r == Thrown(RetrievedWhileOpen) && registry == old(registry)
      ensures errorIfNotRegistered && !registrationOpen && paramName !in old(registry) ==>
        r == Thrown(NotRegistered(paramName)) && registry == old(registry)
      ensures !errorIfNotRegistered || (!registrationOpen && paramName in old(registry)) ==>
        registry == (if paramName in old(registry) then old(registry) else old(registry)[paramName := Blank()])
        && r == Resolve(paramName, registry[paramName].defaultValue, tree, conv)
      ensures old(FinalizersRegistered()) ==> FinalizersRegistered()
    {
      if errorIfNotRegistered {
        if registrationOpen {
          return Thrown(RetrievedWhileOpen);
        }
        if paramName !in registry {
          return Thrown(NotRegistered(paramName));
        }
      }
      if paramName !in registry {
        registry := registry[paramName := Blank()];
      }
      var defaultText := registry[paramName].defaultValue;
      var defaultValue := conv.fromDefault(defaultText);
      match Lookup(tree, paramName)
      case None =>
        r := Ok(defaultValue);
      case Some(text) =>
        match conv.fromText(text)
        case Some(v) => r := Ok(v);
        case None => r := Thrown(Unconvertible(paramName, text));
    }

    /** IsSet<Param>(errorIfNotRegistered): the same checks as Get, then whether the tree has the name. */
    function IsSet(paramName: string, errorIfNotRegistered: bool): (r: Outcome<bool>)
      reads this
      ensures r.Ok? <==> !errorIfNotRegistered || (!registrationOpen && paramName in registry)
      ensures r.Ok? ==> r.value == HasKey(tree, paramName)
      ensures errorIfNotRegistered && registrationOpen ==> r == Thrown(CheckedWhileOpen)
      ensures errorIfNotRegistered && !registrationOpen && paramName !in registry ==> r == Thrown(NotRegistered(paramName))
    {
      if errorIfNotRegistered && registrationOpen then Thrown(CheckedWhileOpen)
      else if errorIfNotRegistered && paramName !in registry then Thrown(NotRegistered(paramName))
      else Ok(HasKey(tree, paramName))
    }

    /**
     * endRegistration: only once. Registration is closed before the
     * finalizers run, so their Get calls pass the life-cycle check; the list
     * is emptied only when all of them succeeded.
     */
    method EndRegistration(accepts: (string, string) -> bool) returns (r: Outcome<()>)
      modifies this`registrationOpen, this`finalizers
      ensures !old(registrationOpen) ==> r == Thrown(AlreadyClosed) && !registrationOpen && finalizers == old(finalizers)
      ensures old(registrationOpen) ==>
        !registrationOpen
        && r == RunFinalizers(old(finalizers), registry, tree, accepts)
        && finalizers == (if r.Ok? then [] else old(finalizers))
      ensures old(registrationOpen) && old(FinalizersRegistered()) && r.Thrown? ==> r.error.Unconvertible?
    {
      if !registrationOpen {
        return Thrown(AlreadyClosed);
      }
      if FinalizersRegistered() {
        RunFinalizersRegistered(finalizers, registry, tree, accepts);
      }
      registrationOpen := false;
      var i := 0;
      while i < |finalizers|
        invariant 0 <= i <= |finalizers|
        invariant RunFinalizers(finalizers[i..], registry, tree, accepts) == RunFinalizers(finalizers, registry, tree, accepts)
      {
        var name := finalizers[i];
        assert finalizers[i..][1..] == finalizers[i + 1..];
        if name !in registry {
          return Thrown(NotRegistered(name));
        }
        var found := Lookup(tree, name);
        if found.Some? && !accepts(name, found.value) {
          return Thrown(Unconvertible(name, found.value));
        }
        i := i + 1;
      }
      finalizers := [];
      r := Ok(());
    }

    /**
     * getLists: both lists are emptied first, then, once registration is
     * closed, every flattened key of the tree goes with its text to the
     * used list when registered and to the unused list otherwise.
     */
    method GetLists() returns (r: Outcome<()>, used: seq<(string, string)>, unused: seq<(string, string)>)
      ensures registrationOpen ==> r == Thrown(ListedWhileOpen) && used == [] && unused == []
      ensures !registrationOpen ==> (r == Ok(())
        && used == WithValues(Registered(FlatKeys(tree, ""), registry), tree)
        && unused == WithValues(Unregistered(FlatKeys(tree, ""), registry), tree))
    {
      used, unused := [], [];
      if registrationOpen {
        return Thrown(ListedWhileOpen), used, unused;
      }
      var keys := GetFlattenedKeyList([], tree, "");
      assert keys == FlatKeys(tree, "") by {
        assert [] + FlatKeys(tree, "") == FlatKeys(tree, "");
      }
      used, unused := SplitByRegistration(keys, registry, tree);
      r := Ok(());
    }
  }

  /** A Get without the check on a name nobody registered leaves a blank entry, and registering the name afterwards conflicts. */
  method GetBeforeRegisterConflicts() returns (got: Outcome<string>, registered: Outcome<()>)
    ensures got == Ok("")
    ensures registered == Thrown(ConflictingRegistration("Name"))
  {
    var ps := new ParameterSystem();
    got := ps.Get("Name", false, StringConversion());
    registered := ps.Register("Name", "std::string", "A name.", "x");
  }

  /** SetDefault after Register is what Get reports once registration is over. */
  method SetDefaultReachesGet(fromText: string -> Option<bool>) returns (got: Outcome<bool>)
    ensures got == Ok(true)
  {
    var ps := new ParameterSystem();
    var _ := ps.Register("Flag", "bool", "A flag.", "0");
    var _ := ps.SetDefault("Flag", "1");
    var _ := ps.EndRegistration((name, text) => true);
    got := ps.Get("Flag", true, BoolConversion(fromText));
  }

  /** A value given at run time wins over the default, and a Register after the end of registration throws. */
  method TreeOverridesDefault() returns (got: Outcome<string>, again: Outcome<()>)
    ensures got == Ok("run time")
    ensures again == Thrown(RegisteredAfterClose("Name"))
  {
    var ps := new ParameterSystem();
    var _ := ps.Register("Name", "std::string", "A name.", "default");
    assert ps.registrationOpen && "Name" in ps.registry;
    ps.tree := Set(ps.tree, "Name", "run time");
    SetThenLookup(Empty(), "Name", "run time", "");
    var t := ps.tree;
    assert Lookup(t, "Name") == Some("run time");
    var _ := ps.EndRegistration((name, text) => true);
    assert !ps.registrationOpen && "Name" in ps.registry && ps.tree == t;
    got := ps.Get("Name", true, StringConversion());
    again := ps.Register("Name", "std::string", "A name.", "default");
  }
}
