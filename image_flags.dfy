/**
 * `ImageFlags`: switches that hide images the app may no longer show. A global switch hides
 * every kind; four more hide one kind each.
 */
module ImageFlags {

  /** The five flags, in declaration order. */
  datatype Flags = Flags(
    hideAllImages: bool,
    hideAnimePosters: bool,
    hideCharacterImages: bool,
    hideTrailerThumbnails: bool,
    hideStudioLogos: bool)

  /** Every flag off: the initial values, and the state `showAllImages` restores. */
  const AllShown := Flags(false, false, false, false, false)

  /** `toggleAllImages`: flips the global flag and nothing else. */
  function Toggled(f: Flags): (r: Flags)
    ensures r.hideAllImages == !f.hideAllImages
    ensures r.(hideAllImages := f.hideAllImages) == f
  {
    f.(hideAllImages := !f.hideAllImages)
  }

  /** `hideAllImages()`: sets the global flag and nothing else. */
  function AllHidden(f: Flags): (r: Flags)
    ensures r.hideAllImages
    ensures r.(hideAllImages := f.hideAllImages) == f
  {
    f.(hideAllImages := true)
  }

  /** Toggling twice restores every flag. */
  lemma ToggleTwiceRestores(f: Flags)
    ensures Toggled(Toggled(f)) == f
  {
  }

  /** Hiding all images a second time changes nothing. */
  lemma HideAllIsIdempotent(f: Flags)
    ensures AllHidden(AllHidden(f)) == AllHidden(f)
  {
  }

  /** The `ImageFlags` object. */
  class ImageFlags {
    var hideAllImages: bool
    var hideAnimePosters: bool
    var hideCharacterImages: bool
    var hideTrailerThumbnails: bool
    var hideStudioLogos: bool

    function State(): Flags
      reads this
    {
      Flags(hideAllImages, hideAnimePosters, hideCharacterImages, hideTrailerThumbnails, hideStudioLogos)
    }

    predicate ShouldHideAnimePoster()
      reads this
    {
      hideAllImages || hideAnimePosters
    }

    predicate ShouldHideCharacterImage()
      reads this
    {
      hideAllImages || hideCharacterImages
    }

    predicate ShouldHideTrailerThumbnail()
      reads this
    {
      hideAllImages || hideTrailerThumbnails
    }

    predicate ShouldHideStudioLogo()
      reads this
    {
      hideAllImages || hideStudioLogos
    }

    /** Nothing hidden at first. */
    constructor()
      ensures State() == AllShown
      ensures !ShouldHideAnimePoster() && !ShouldHideCharacterImage()
      ensures !ShouldHideTrailerThumbnail() && !ShouldHideStudioLogo()
    {
      hideAllImages := false;
      hideAnimePosters := false;
      hideCharacterImages := false;
      hideTrailerThumbnails := false;
      hideStudioLogos := false;
    }

    method ToggleAllImages()
      modifies this
      ensures State() == Toggled(old(State()))
      ensures hideAllImages ==>
        ShouldHideAnimePoster() && ShouldHideCharacterImage() && ShouldHideTrailerThumbnail() && ShouldHideStudioLogo()
      ensures !hideAllImages ==>
        && ShouldHideAnimePoster() == hideAnimePosters && ShouldHideCharacterImage() == hideCharacterImages
        && ShouldHideTrailerThumbnail() == hideTrailerThumbnails && ShouldHideStudioLogo() == hideStudioLogos
    {
      hideAllImages := !hideAllImages;
    }

    method ShowAllImages()
      modifies this
      ensures State() == AllShown
      ensures !ShouldHideAnimePoster() && !ShouldHideCharacterImage()
      ensures !ShouldHideTrailerThumbnail() && !ShouldHideStudioLogo()
    {
      hideAllImages := false;
      hideAnimePosters := false;
      hideCharacterImages := false;
      hideTrailerThumbnails := false;
      hideStudioLogos := false;
    }

    /** Afterwards every kind of image is hidden, whatever its own flag says. */
    method HideAllImages()
      modifies this
      ensures State() == AllHidden(old(State()))
      ensures ShouldHideAnimePoster() && ShouldHideCharacterImage()
      ensures ShouldHideTrailerThumbnail() && ShouldHideStudioLogo()
    {
      hideAllImages := true;
    }
  }
}
