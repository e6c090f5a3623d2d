/**
  The template catalogue: the frameworks offered by the "Select a template" question and,
  for each, the variants offered by "Select a variant". A variant's name is the template
  id it selects.
 */
module Catalog {

  datatype Variant = Variant(name: string, display: string)

  datatype Framework = Framework(name: string, display: string, variants: seq<Variant>)

  const Frameworks: seq<Framework> := [
    Framework("node", "Node", [
      Variant("node", "Node Javascript"),
      Variant("node-ts", "Node Typescript")
    ]),
    Framework("react", "React", [
      Variant("react", "React Javascript"),
      Variant("react-ts", "React Typescript")
    ])
  ]

  /** The template ids the catalogue can select. */
  const TemplateIds: set<string> := {"node", "node-ts", "react", "react-ts"}

  /** Every variant of every catalogued framework names a known template, and so does every
      framework's own name. */
  lemma CatalogNamesAreTemplates(f: Framework, i: nat)
    requires f in Frameworks && i < |f.variants|
    ensures f.variants[i].name in TemplateIds
    ensures f.name in TemplateIds
  {
  }
}
