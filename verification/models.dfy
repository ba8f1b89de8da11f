/**
 Model normalisation (`buildModels`): every object type of the reference-type
 registry becomes a model whose `additionalProperties` facet is settled. An
 explicit declaration is kept as it is; a missing one is filled in from the
 global `noImplicitAdditionalProperties` policy. Nothing else about the entry
 changes, and each model is filed under the registry key it came from.
 */
module Models {

  /** A type descriptor; only its data type is observed here, the rest is carried as it is. */
  datatype Type = Type(dataType: string)

  /** A declared property of an object type (its validators and deprecation flag are not modelled). */
  datatype Property = Property(name: string, required: bool, propertyType: Type)

  /** The three states of `additionalProperties`: not declared, `false`, or a type for extra values. */
  datatype AdditionalProperties = Unset | Forbidden | Permits(valueType: Type)

  /** A registry entry: an object type, or any other reference type (enum, alias, union) carried opaquely. */
  datatype ReferenceType =
    | RefObject(refName: string, properties: seq<Property>, additionalProperties: AdditionalProperties)
    | RefOther(dataType: string, refName: string)

  /** The `noImplicitAdditionalProperties` setting. */
  datatype Policy = SilentlyRemoveExtras | ThrowOnExtras | Ignore

  /** Reference types by type name. */
  type Registry = map<string, ReferenceType>

  /** The descriptor that admits any value, used when extra properties are allowed by default. */
  const AnyValue: Type := Type("any")

  /** A model as consumers need it: an object type never has an unset `additionalProperties`. */
  predicate Settled(t: ReferenceType) {
    t.RefObject? ==> !t.additionalProperties.Unset?
  }

  /** All models of a dictionary are settled. */
  predicate AllSettled(models: Registry) {
    forall name :: name in models ==> Settled(models[name])
  }

  /**
   The `additionalProperties` a model gets: the declared facet when there is
   one, otherwise `false` under "silently-remove-extras" (and
   "throw-on-extras"), or any value under "ignore".
   */
  function ResolveAdditional(declared: AdditionalProperties, policy: Policy): (r: AdditionalProperties)
    ensures !r.Unset?
    ensures !declared.Unset? ==> r == declared
    ensures declared.Unset? && policy == SilentlyRemoveExtras ==> r == Forbidden
  {
    match declared
    case Unset =>
      (match policy
       case SilentlyRemoveExtras => Forbidden
       case ThrowOnExtras => Forbidden
       case Ignore => Permits(AnyValue))
    case _ => declared
  }

  /** The model for one registry entry: an object type with its facet resolved, anything else as it is. */
  function Normalise(t: ReferenceType, policy: Policy): (m: ReferenceType)
    ensures Settled(m)
    ensures m.RefObject? <==> t.RefObject?
    ensures t.RefObject? ==> m.refName == t.refName && m.properties == t.properties
    ensures Settled(t) ==> m == t
    ensures t.RefObject? ==> m.additionalProperties == ResolveAdditional(t.additionalProperties, policy)
  {
    match t
    case RefObject(_, _, declared) => t.(additionalProperties := ResolveAdditional(declared, policy))
    case RefOther(_, _) => t
  }

  /**
   `buildModels`: one model per registry key, filed under that key. Every
   model is settled; an object type's model differs from its entry at most in
   the `additionalProperties` facet; a declared facet is kept; an undeclared
   one becomes `false` under "silently-remove-extras"; other entries are
   passed through.
   */
  function BuildModels(registry: Registry, policy: Policy): (models: Registry)
    ensures models.Keys == registry.Keys
    ensures AllSettled(models)
    ensures forall name :: name in registry && registry[name].RefObject? ==>
              && models[name].RefObject?
              && models[name] == registry[name].(additionalProperties := models[name].additionalProperties)
    ensures forall name :: name in registry && Settled(registry[name]) ==> models[name] == registry[name]
    ensures policy == SilentlyRemoveExtras ==>
              forall name :: name in registry && registry[name].RefObject? && registry[name].additionalProperties.Unset? ==>
                models[name] == registry[name].(additionalProperties := Forbidden)
  {
    map name | name in registry :: Normalise(registry[name], policy)
  }

  /**
   Normalising settled models changes nothing, whatever the policy: an author's
   (or an earlier run's) explicit decision always wins. In particular running
   `buildModels` on its own output gives the same dictionary.
   */
  lemma SettledModelsAreFixed(models: Registry, policy: Policy)
    requires AllSettled(models)
    ensures BuildModels(models, policy) == models
  {
    var again := BuildModels(models, policy);
    assert again.Keys == models.Keys;
    forall name | name in models ensures again[name] == models[name] {
      assert Settled(models[name]);
    }
  }

  /** Normalisation is idempotent. */
  lemma BuildModelsIdempotent(registry: Registry, policy: Policy)
    ensures BuildModels(BuildModels(registry, policy), policy) == BuildModels(registry, policy)
  {
    SettledModelsAreFixed(BuildModels(registry, policy), policy);
  }

  /** Entries are normalised independently: replacing one entry changes only its own model. */
  lemma BuildModelsPointwise(registry: Registry, policy: Policy, name: string, t: ReferenceType)
    ensures BuildModels(registry[name := t], policy) == BuildModels(registry, policy)[name := Normalise(t, policy)]
  {
    var lhs := BuildModels(registry[name := t], policy);
    var rhs := BuildModels(registry, policy)[name := Normalise(t, policy)];
    assert lhs.Keys == rhs.Keys;
    forall k | k in lhs ensures lhs[k] == rhs[k] {
      if k != name {
        assert registry[name := t][k] == registry[k];
      }
    }
  }

  /** The registry of the `buildModels` test: a strict object type, and a string dictionary whose `refName` names the other. */
  function TestRegistry(): Registry {
    map[
      "refThatShouldNotAllowExtras" :=
        RefObject("refThatShouldNotAllowExtras", [Property("aStringOnTheObject", true, Type("string"))], Unset),
      "refWithExtraStrings" :=
        RefObject("refThatShouldNotAllowExtras", [], Permits(Type("string")))
    ]
  }

  /**
   Under "silently-remove-extras" the undeclared facet becomes `false`, the
   declared string dictionary stays a string dictionary, and each model is
   found under its own key although both entries carry the same `refName`.
   */
  lemma TestRegistryModels()
    ensures var models := BuildModels(TestRegistry(), SilentlyRemoveExtras);
      && "refThatShouldNotAllowExtras" in models
      && models["refThatShouldNotAllowExtras"].RefObject?
      && models["refThatShouldNotAllowExtras"].additionalProperties == Forbidden
      && "refWithExtraStrings" in models
      && models["refWithExtraStrings"].RefObject?
      && models["refWithExtraStrings"].additionalProperties == Permits(Type("string"))
      && models["refWithExtraStrings"].refName == "refThatShouldNotAllowExtras"
  {
    var registry := TestRegistry();
    assert "refThatShouldNotAllowExtras" in registry;
    assert "refWithExtraStrings" in registry;
  }
}
