/** The marker literals of the templating syntax. */
module Constants {
  const KoIfStartTag: string := "<!--koif:"
  const KoIfNotStartTag: string := "<!--koifnot:"
  const KoTemplateStartTag: string := "<!--kotemplate:"
  const KoForEachStartTag: string := "<!--koforeach:"
  /** Declared alongside the others but never consulted by the recognisers. */
  const KoLetTag: string := "<!--kolet:"
  const KoEndTag: string := "<!--/ko-->"
}
