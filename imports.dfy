/** The resolver's view of an import: where it came from, and the index key it is looked up by. */
module Imports {
  import opened Parser
  import Language

  /** An import header together with the path of the file it was read from. */
  datatype ImportStatement = ImportStatement(sourcePath: string, importHeader: ImportHeader)

  /** resolve.ImportSpec: the key the rule index and the override directives use. */
  datatype ImportSpec = ImportSpec(lang: string, imp: string)

  /** importSpecForIdentifier: the Kotlin language and the identifier's dotted literal. */
  function ImportSpecForIdentifier(id: Identifier): (r: ImportSpec)
    ensures r.lang == Language.LanguageName && r.lang == "kotlin"
    ensures r.imp == LiteralOf(id)
  {
    ImportSpec(Language.LanguageName, LiteralOf(id))
  }

  /** The spec depends on the literal only: identifiers that print alike are looked up alike. */
  lemma SpecDependsOnlyOnLiteral(a: Identifier, b: Identifier)
    ensures ImportSpecForIdentifier(a) == ImportSpecForIdentifier(b) <==> LiteralOf(a) == LiteralOf(b)
  {
  }
}
