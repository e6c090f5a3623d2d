/**
  The `package.json` patch: the template's descriptor, once parsed, gets its `name`
  property set to the resolved package name. The assignment runs in strict-mode module
  code, so on a parsed `null`, boolean, number or string it throws; on an array it adds a
  property that serialisation ignores; on an object it overwrites or adds `name` and keeps
  every other property.
 */
module Descriptor {
  import opened Wrappers

  /** A parsed JSON value. Numbers keep their text; member order is not modelled. */
  datatype Json =
    | JNull
    | JBool(b: bool)
    | JNumber(text: string)
    | JString(s: string)
    | JArray(items: seq<Json>)
    | JObject(members: map<string, Json>)

  predicate IsPrimitive(j: Json) {
    j.JNull? || j.JBool? || j.JNumber? || j.JString?
  }

  /** `pkg.name = name` followed by what serialisation keeps of the result; `None` is the
      strict-mode TypeError. */
  function SetName(j: Json, name: string): Option<Json> {
    match j
    case JObject(ms) => Some(JObject(ms["name" := JString(name)]))
    case JArray(_) => Some(j)
    case _ => None
  }

  /** The `name` property of a descriptor, as a reader of the written file sees it. */
  function NameOf(j: Json): Option<Json> {
    if j.JObject? && "name" in j.members then Some(j.members["name"]) else None
  }

  /** The patch fails exactly on primitives. On an object it sets `name`, keeps every other
      property with its value, and adds nothing else; an array comes back unchanged. */
  lemma SetNameSpec(j: Json, name: string)
    ensures SetName(j, name).None? <==> IsPrimitive(j)
    ensures j.JArray? ==> SetName(j, name) == Some(j)
    ensures j.JObject? ==>
              var p := SetName(j, name).value;
              && p.JObject?
              && p.members.Keys == j.members.Keys + {"name"}
              && (forall k | k in j.members && k != "name" :: p.members[k] == j.members[k])
  {
  }

  /** Reading the name back from a patched object gives the package name. */
  lemma NameReadsBack(j: Json, name: string)
    requires j.JObject?
    ensures NameOf(SetName(j, name).value) == Some(JString(name))
  {
  }

  /** Patching twice with the same name changes nothing more. */
  lemma SetNameIdempotent(j: Json, name: string)
    requires !IsPrimitive(j)
    ensures SetName(SetName(j, name).value, name) == SetName(j, name)
  {
    if j.JObject? {
      var ms := j.members;
      assert ms["name" := JString(name)]["name" := JString(name)] == ms["name" := JString(name)];
    }
  }

  /** A descriptor whose name already is the package name comes back as it was. */
  lemma SetNameKeepsNamed(j: Json, name: string)
    requires j.JObject? && NameOf(j) == Some(JString(name))
    ensures SetName(j, name) == Some(j)
  {
    assert j.members["name" := JString(name)] == j.members;
  }
}
