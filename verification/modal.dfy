/** The single, reused light detail modal: what it displays after a record is
    opened, and closing it. */
module DetailModal {
  import opened Artworks

  /** The `<img>` element written into the modal's image slot. */
  datatype ImageTag = ImageTag(src: string, alt: string)

  /** The displayed content of the modal and whether it is shown. */
  datatype Modal = Modal(
    active: bool,
    image: Option<ImageTag>,
    title: string,
    artist: string,
    size: string,
    medium: string,
    year: string,
    style: string,
    description: string)

  /** The modal as the page template provides it: hidden and empty. */
  const Blank: Modal := Modal(false, None, "", "", "", "", "", "", "")

  /** openLightModal: every slot of the modal is overwritten from `art` and
      the modal is shown. A falsy text field shows as ""; an image is written
      only for a truthy image path, with the title interpolated as alt text. */
  function Open(m: Modal, art: Artwork): (r: Modal)
    ensures r.active
    ensures r.image.Some? <==> Truthy(art.image)
    ensures r.image.Some? ==> r.image.value.src == art.image.value && r.image.value.alt == Interpolate(art.title)
    ensures Truthy(art.title) ==> r.title == art.title.value
    ensures !Truthy(art.title) ==> r.title == ""
    ensures Truthy(art.artist) ==> r.artist == art.artist.value
    ensures !Truthy(art.artist) ==> r.artist == ""
    ensures Truthy(art.size) ==> r.size == art.size.value
    ensures !Truthy(art.size) ==> r.size == ""
    ensures Truthy(art.medium) ==> r.medium == art.medium.value
    ensures !Truthy(art.medium) ==> r.medium == ""
    ensures Truthy(art.year) ==> r.year == art.year.value
    ensures !Truthy(art.year) ==> r.year == ""
    ensures Truthy(art.style) ==> r.style == art.style.value
    ensures !Truthy(art.style) ==> r.style == ""
    ensures Truthy(art.description) ==> r.description == art.description.value
    ensures !Truthy(art.description) ==> r.description == ""
  {
    Modal(
      true,
      if Truthy(art.image) then Some(ImageTag(art.image.value, Interpolate(art.title))) else None,
      OrEmpty(art.title),
      OrEmpty(art.artist),
      OrEmpty(art.size),
      OrEmpty(art.medium),
      OrEmpty(art.year),
      OrEmpty(art.style),
      OrEmpty(art.description))
  }

  /** Opening a record replaces every slot: nothing of what the modal showed
      before survives, so two openings of the same record look the same. */
  lemma OpenReplacesPrevious(m1: Modal, m2: Modal, art: Artwork)
    ensures Open(m1, art) == Open(m2, art)
  {
  }

  /** closeLightModal: the modal is hidden, its content left as it was. */
  function Close(m: Modal): (r: Modal)
    ensures !r.active
    ensures r.(active := m.active) == m
  {
    m.(active := false)
  }
}
