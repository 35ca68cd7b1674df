/**
 * `color_gender`: German nouns entered with their definite article are
 * wrapped in a coloured `<span>`, the colour fixed by the article.
 */
module Gender {
  import opened Wrappers
  import opened Text

  const FemininePrefix := "die "
  const NeuterPrefix := "das "
  const MasculinePrefix := "der "

  const FeminineOpen := "<span style=\"color: rgb(255, 88, 111);\">"
  const NeuterOpen := "<span style=\"color: rgb(88, 255, 101);\">"
  const MasculineOpen := "<span style=\"color: rgb(88, 141, 255);\">"
  const SpanClose := "</span>"

  /** The opening tag for a text, or None when it is not coloured. */
  function OpeningTag(field: string, lang: string): (tag: Option<string>)
    ensures tag.Some? <==> (lang == "de" &&
      (StartsWith(field, FemininePrefix) || StartsWith(field, NeuterPrefix) || StartsWith(field, MasculinePrefix)))
  {
    if lang != "de" then None
    else if StartsWith(field, FemininePrefix) then Some(FeminineOpen)
    else if StartsWith(field, NeuterPrefix) then Some(NeuterOpen)
    else if StartsWith(field, MasculinePrefix) then Some(MasculineOpen)
    else None
  }

  /**
   * `color_gender(field, selected_language)`: in German, a text starting
   * with `die `, `das ` or `der ` (tested in that order) is wrapped whole in
   * one span of the article's colour; any other text comes back unchanged.
   */
  function ColorGender(field: string, lang: string): (r: string)
    ensures lang != "de" ==> r == field
    ensures lang == "de" && StartsWith(field, FemininePrefix) ==> r == FeminineOpen + field + SpanClose
    ensures lang == "de" && StartsWith(field, NeuterPrefix) ==> r == NeuterOpen + field + SpanClose
    ensures lang == "de" && StartsWith(field, MasculinePrefix) ==> r == MasculineOpen + field + SpanClose
    ensures (!StartsWith(field, FemininePrefix) && !StartsWith(field, NeuterPrefix)
      && !StartsWith(field, MasculinePrefix)) ==> r == field
  {
    match OpeningTag(field, lang)
    case None => field
    case Some(open) => open + field + SpanClose
  }

  /** The three articles exclude each other, so the order the source tests them in never matters. */
  lemma ArticlesExclusive(field: string)
    ensures !(StartsWith(field, FemininePrefix) && StartsWith(field, NeuterPrefix))
    ensures !(StartsWith(field, FemininePrefix) && StartsWith(field, MasculinePrefix))
    ensures !(StartsWith(field, NeuterPrefix) && StartsWith(field, MasculinePrefix))
  {
    if StartsWith(field, FemininePrefix) {
      assert field[1] == 'i';
    } else if StartsWith(field, NeuterPrefix) {
      assert field[1] == 'a';
    }
  }

  /**
   * Colouring twice is colouring once: a coloured text starts with `<`, not
   * with an article. The lexicon note overwrites the card's `fullT` with its
   * coloured form, so adding the same card again does not nest spans.
   */
  lemma ColorGenderIdempotent(field: string, lang: string)
    ensures ColorGender(ColorGender(field, lang), lang) == ColorGender(field, lang)
  {
    match OpeningTag(field, lang)
    case None =>
    case Some(open) =>
      var r := open + field + SpanClose;
      assert open[0] == '<';
      assert r[0] == open[0];
      assert !StartsWith(r, FemininePrefix) && !StartsWith(r, NeuterPrefix) && !StartsWith(r, MasculinePrefix);
  }

  /**
   * The colouring never loses the text: the result is the text itself or
   * the text between one of the three opening tags and the closing tag.
   */
  lemma ColorGenderKeepsText(field: string, lang: string)
    ensures var r := ColorGender(field, lang);
      r == field ||
      (exists open :: open in {FeminineOpen, NeuterOpen, MasculineOpen} && r == open + field + SpanClose)
  {
    match OpeningTag(field, lang)
    case None =>
    case Some(open) =>
      assert ColorGender(field, lang) == open + field + SpanClose;
  }
}
