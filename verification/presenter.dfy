/**
 * Projections of one artwork into what the page shows: the description with
 * its generated fallback, the lines of a gallery card, and the detail view
 * with the artist's biography and the pre-filled WhatsApp contact link.
 */
module Presenter {
  import opened Wrappers
  import opened Text
  import opened Uri
  import opened Catalog

  const PlaceholderImage: string := "./src/assets/images/placeholder.jpg"
  const SizeFallback: string := "Tamanho não informado"
  const PriceFallback: string := "Valor sob consulta"
  const PhoneNumber: string := "5585985204125"

  /** The link up to the encoded message. */
  const WhatsappBase: string := "https://wa.me/" + PhoneNumber + "?text="

  /** `field || fallback` for an optional text field: absent and empty both fall back. */
  function OrElse(field: Option<string>, fallback: string): (r: string)
    ensures field.Some? && field.value != "" ==> r == field.value
    ensures field.None? || field.value == "" ==> r == fallback
    ensures fallback != "" ==> r != ""
  {
    if field.Some? && field.value != "" then field.value else fallback
  }

  /** The fixed part of the generated description after the artist and the technique. */
  const DescriptionTail: string :=
    " representa com sensibilidade a cultura popular brasileira. Transmite emoção, identidade e beleza visual, convidando o espectador a uma imersão profunda na arte nacional."

  /** The sentence used when an artwork has no description of its own. */
  function DescriptionTemplate(artista: string, tecnica: string): string
  {
    "Esta obra de " + artista + " em " + tecnica + DescriptionTail
  }

  /** The template names the artist and the technique and is not blank. */
  lemma DescriptionTemplateSpec(artista: string, tecnica: string)
    ensures Contains(DescriptionTemplate(artista, tecnica), artista)
    ensures Contains(DescriptionTemplate(artista, tecnica), tecnica)
    ensures !AllSpace(DescriptionTemplate(artista, tecnica))
  {
    TemplateParts("Esta obra de ", artista, " em ", tecnica, DescriptionTail);
  }

  /** A text `head + a + mid + t + tail` with a non-blank first character contains `a` and `t` and is not blank. */
  lemma TemplateParts(head: string, a: string, mid: string, t: string, tail: string)
    requires head != [] && !IsJsSpace(head[0])
    ensures Contains(head + a + mid + t + tail, a) && Contains(head + a + mid + t + tail, t)
    ensures !AllSpace(head + a + mid + t + tail)
  {
    var r := head + a + mid + t + tail;
    ContainsMiddle(head, a, mid + t + tail);
    ContainsMiddle(head + a + mid, t, tail);
    assert head + a + (mid + t + tail) == r;
    assert r[0] == head[0];
  }

  /** The artwork's own description counts only when it has a non-whitespace character. */
  predicate HasOwnDescription(o: Obra)
  {
    o.descricao.Some? && Trim(o.descricao.value) != ""
  }

  lemma OwnDescriptionIff(o: Obra)
    ensures HasOwnDescription(o) <==> o.descricao.Some? && !AllSpace(o.descricao.value)
  {
    if o.descricao.Some? {
      TrimEmptyIff(o.descricao.value);
    }
  }

  /** `generateDescription`: the artwork's own description unless it is blank, else the template. */
  function GenerateDescription(o: Obra): string
  {
    if HasOwnDescription(o) then o.descricao.value else DescriptionTemplate(o.artista, o.tecnica)
  }

  /**
   * The artwork's own description is returned verbatim when it is not blank,
   * otherwise the template, which names the artist and the technique. The
   * result is never blank.
   */
  lemma GenerateDescriptionSpec(o: Obra)
    ensures o.descricao.Some? && !AllSpace(o.descricao.value) ==> GenerateDescription(o) == o.descricao.value
    ensures o.descricao.None? || AllSpace(o.descricao.value) ==>
      && GenerateDescription(o) == DescriptionTemplate(o.artista, o.tecnica)
      && Contains(GenerateDescription(o), o.artista)
      && Contains(GenerateDescription(o), o.tecnica)
    ensures !AllSpace(GenerateDescription(o))
  {
    OwnDescriptionIff(o);
    DescriptionTemplateSpec(o.artista, o.tecnica);
  }

  /** The "artist – technique" line. */
  function ArtistTechnique(o: Obra): string
  {
    o.artista + " – " + o.tecnica
  }

  /** The "size | price" line, each part with its placeholder. */
  function SizeValue(o: Obra): string
  {
    OrElse(o.tamanho, SizeFallback) + " | " + OrElse(o.valor, PriceFallback)
  }

  /** The image source, the placeholder when the artwork has none. */
  function ImageSrc(o: Obra): string
  {
    OrElse(o.imagem, PlaceholderImage)
  }

  /** Both parts of the size/price line are always filled, by the artwork's value or by the placeholder. */
  lemma SizeValueSpec(o: Obra)
    ensures OrElse(o.tamanho, SizeFallback) != "" && OrElse(o.valor, PriceFallback) != ""
    ensures o.tamanho.Some? && o.tamanho.value != "" ==> SizeValue(o)[..|o.tamanho.value|] == o.tamanho.value
    ensures o.tamanho.None? || o.tamanho.value == "" ==> SizeValue(o)[..|SizeFallback|] == SizeFallback
    ensures o.valor.Some? && o.valor.value != "" ==>
      |o.valor.value| <= |SizeValue(o)| && SizeValue(o)[|SizeValue(o)| - |o.valor.value|..] == o.valor.value
    ensures o.valor.None? || o.valor.value == "" ==>
      |PriceFallback| <= |SizeValue(o)| && SizeValue(o)[|SizeValue(o)| - |PriceFallback|..] == PriceFallback
    ensures ImageSrc(o) != ""
  {
  }

  /** The WhatsApp message naming the artwork and its artist. */
  function Message(o: Obra): string
  {
    "Olá! Tenho interesse na obra \"" + o.titulo + "\", do artista " + o.artista
    + ". Poderia me passar mais informações?"
  }

  /** The contact link: the fixed address, then the percent-encoded message. */
  function WhatsappLink(o: Obra): string
  {
    WhatsappBase + Encode(Message(o))
  }

  /** The link starts with the fixed address, and what follows decodes to the message. */
  lemma WhatsappLinkSpec(o: Obra)
    ensures |WhatsappBase| <= |WhatsappLink(o)| && WhatsappLink(o)[..|WhatsappBase|] == WhatsappBase
    ensures Decode(WhatsappLink(o)[|WhatsappBase|..]) == Some(Message(o))
  {
    assert WhatsappLink(o)[|WhatsappBase|..] == Encode(Message(o));
    DecodeEncode(Message(o));
  }

  /** The message names the artwork's title and its artist. */
  lemma MessageNamesArtwork(o: Obra)
    ensures Contains(Message(o), o.titulo)
    ensures Contains(Message(o), o.artista)
  {
    var m := Message(o);
    var tail := ". Poderia me passar mais informações?";
    assert m == "Olá! Tenho interesse na obra \"" + o.titulo + ("\", do artista " + o.artista + tail);
    ContainsMiddle("Olá! Tenho interesse na obra \"", o.titulo, "\", do artista " + o.artista + tail);
    assert m == ("Olá! Tenho interesse na obra \"" + o.titulo + "\", do artista ") + o.artista + tail;
    ContainsMiddle("Olá! Tenho interesse na obra \"" + o.titulo + "\", do artista ", o.artista, tail);
  }

  /** Two artworks get the same link only when their messages coincide. */
  lemma WhatsappLinkInjective(o1: Obra, o2: Obra)
    requires WhatsappLink(o1) == WhatsappLink(o2)
    ensures Message(o1) == Message(o2)
  {
    WhatsappLinkSpec(o1);
    WhatsappLinkSpec(o2);
  }

  /** One gallery card: its position tag (`data-index`) and the artwork it is drawn from. */
  datatype Card = Card(index: nat, obra: Obra)

  /** The lines of text a card shows, and its image source. */
  function CardImage(c: Card): string
  {
    ImageSrc(c.obra)
  }

  function CardTitle(c: Card): string
  {
    c.obra.titulo
  }

  function CardArtistTechnique(c: Card): string
  {
    ArtistTechnique(c.obra)
  }

  function CardSizeValue(c: Card): string
  {
    SizeValue(c.obra)
  }

  function CardDescription(c: Card): string
  {
    GenerateDescription(c.obra)
  }

  /** The contents of the detail overlay. */
  datatype DetailView = DetailView(
    image: string,
    title: string,
    artistTechnique: string,
    sizeValue: string,
    description: string,
    bio: string,
    bioHidden: bool,
    whatsappHref: string)

  /** `artistBios[artist]` is truthy: present and not the empty string. */
  predicate HasBio(bios: map<string, string>, artist: string)
  {
    artist in bios && bios[artist] != ""
  }

  /** The detail view `openModal` fills in. */
  function Present(o: Obra, bios: map<string, string>): DetailView
  {
    var bio := if o.artista in bios then bios[o.artista] else "";
    DetailView(ImageSrc(o), o.titulo, ArtistTechnique(o), SizeValue(o), GenerateDescription(o),
               bio, bio == "", WhatsappLink(o))
  }

  /**
   * The detail view shows the title and the generated description; the
   * biography is shown exactly when the artist has a non-empty one, and is
   * otherwise hidden and empty; the link decodes to the message about this
   * artwork.
   */
  lemma PresentSpec(o: Obra, bios: map<string, string>)
    ensures Present(o, bios).title == o.titulo
    ensures Present(o, bios).description == GenerateDescription(o)
    ensures Present(o, bios).bioHidden <==> !HasBio(bios, o.artista)
    ensures Present(o, bios).bioHidden ==> Present(o, bios).bio == ""
    ensures !Present(o, bios).bioHidden ==> Present(o, bios).bio == bios[o.artista] != ""
    ensures Present(o, bios).whatsappHref == WhatsappLink(o)
    ensures Decode(Present(o, bios).whatsappHref[|WhatsappBase|..]) == Some(Message(o))
  {
    WhatsappLinkSpec(o);
  }

  /** A card and the detail view of the same artwork show the same texts. */
  lemma CardAgreesWithDetail(o: Obra, index: nat, bios: map<string, string>)
    ensures CardTitle(Card(index, o)) == Present(o, bios).title
    ensures CardArtistTechnique(Card(index, o)) == Present(o, bios).artistTechnique
    ensures CardSizeValue(Card(index, o)) == Present(o, bios).sizeValue
    ensures CardDescription(Card(index, o)) == Present(o, bios).description
    ensures CardImage(Card(index, o)) == Present(o, bios).image
  {
  }
}
