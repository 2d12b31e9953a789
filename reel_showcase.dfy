/**
 The stateful part of the reel feed: the media element the handlers drive,
 the hover-preview card, and the showcase's component state (active
 category, current page, selected reel, mute flag) with its event handlers
 and the modal player's clicks.
 */
module ReelShowcase {
  import opened Wrappers
  import opened ReelFeed

  /** The part of an HTML media element that the handlers read and write. */
  class VideoElement {
    var currentTime: real
    var paused: bool
    var muted: bool

    /** A freshly mounted element: paused at position 0. An `autoPlay`
        attribute is a `Play` request made on mounting. */
    constructor (startMuted: bool)
      ensures currentTime == 0.0 && paused && muted == startMuted
    {
      currentTime := 0.0;
      paused := true;
      muted := startMuted;
    }

    /** `play()`. Whether the browser honours the request (autoplay policy) is
        outside the program, so it is a parameter; a refused request leaves the
        element as it was. */
    method Play(allowed: bool)
      modifies this
      ensures paused == (old(paused) && !allowed)
      ensures currentTime == old(currentTime) && muted == old(muted)
    {
      if allowed {
        paused := false;
      }
    }

    /** `pause()`. */
    method Pause()
      modifies this
      ensures paused
      ensures currentTime == old(currentTime) && muted == old(muted)
    {
      paused := true;
    }
  }

  /** One card of the grid: idle (not hovering) or previewing (hovering). */
  class ReelCard {
    const reel: Reel
    const index: nat
    /** `videoRef.current`: the muted, looping element rendered when the reel has a URL. */
    const video: VideoElement?
    var isHovering: bool

    /** The element exists exactly when there is a URL, it is always muted, and
        an idle card's preview is paused at the start. */
    ghost predicate Valid()
      reads this, video
    {
      && (video != null <==> reel.videoUrl != "")
      && (video != null ==> video.muted && (!isHovering ==> video.paused && video.currentTime == 0.0))
    }

    constructor (reel: Reel, index: nat)
      ensures Valid() && (video != null ==> fresh(video))
      ensures this.reel == reel && this.index == index && !isHovering
    {
      this.reel := reel;
      this.index := index;
      if reel.videoUrl != "" {
        video := new VideoElement(true);
      } else {
        video := null;
      }
      isHovering := false;
    }

    /** `handleMouseEnter`: start previewing; with an element and a URL, rewind
        and request playback. */
    method MouseEnter(playAllowed: bool)
      requires Valid()
      modifies this, video
      ensures Valid() && isHovering
      ensures video != null ==> video.currentTime == 0.0 && video.paused == (old(video.paused) && !playAllowed)
    {
      isHovering := true;
      if video != null && reel.videoUrl != "" {
        video.currentTime := 0.0;
        video.Play(playAllowed);
      }
    }

    /** `handleMouseLeave`: stop previewing; pause and rewind, whatever became
        of the play request. */
    method MouseLeave()
      requires Valid()
      modifies this, video
      ensures Valid() && !isHovering
      ensures video != null ==> video.paused && video.currentTime == 0.0
    {
      isHovering := false;
      if video != null {
        video.Pause();
        video.currentTime := 0.0;
      }
    }

    /** The card's `onClick`: emits the card's reel id and changes nothing. */
    method Click() returns (id: int)
      ensures id == reel.id
    {
      id := reel.id;
    }

    /** The card's `aspectRatio` style: one of the three ratios, cycling with
        the card's position in the grid. */
    function Ratio(): (r: string)
      ensures r in ASPECT_RATIOS && r == ASPECT_RATIOS[index % 3]
    {
      AspectRatio(index)
    }
  }

  /** Where a click lands while the modal is open. The close button sits on the
      backdrop; the mute button sits in the content pane, which stops propagation. */
  datatype ModalTarget = Backdrop | CloseButton | ContentPane | MuteButton

  function Max(a: int, b: int): int { if a >= b then a else b }

  class Showcase {
    var activeCategory: string
    var selectedReel: Option<int>
    var isMuted: bool
    var currentPage: int
    /** `modalVideoRef.current`: the modal's element while the modal is mounted. */
    var modalVideo: VideoElement?

    function Filtered(): seq<Reel>
      reads this
    {
      Filter(CATALOG, activeCategory)
    }

    function PageCount(): nat
      reads this
    {
      TotalPages(|Filtered()|)
    }

    function CurrentReels(): seq<Reel>
      reads this
    {
      Page(Filtered(), currentPage)
    }

    function SelectedReelData(): Option<Reel>
      reads this
    {
      Find(CATALOG, selectedReel)
    }

    predicate ModalOpen()
      reads this
    {
      ModalShown(CATALOG, selectedReel)
    }

    /** The Previous/Next controls are rendered only with more than one page,
        that is, when the filtered reels do not fit on one page. */
    predicate PaginationShown()
      reads this
      ensures PaginationShown() <==> |Filtered()| > ITEMS_PER_PAGE
    {
      PageCount() > 1
    }

    /** "Previous" is enabled on every page but the first; from a page in
        range it leads to a page in range. */
    predicate PreviousEnabled()
      reads this
      ensures PreviousEnabled() ==> PaginationShown()
      ensures PreviousEnabled() && CurrentPageInRange() ==> 1 <= currentPage - 1 < PageCount()
    {
      PaginationShown() && currentPage != 1
    }

    /** "Next" is enabled on every page but the last; from a page in range it
        leads to a page in range. */
    predicate NextEnabled()
      reads this
      ensures NextEnabled() ==> PaginationShown()
      ensures NextEnabled() && CurrentPageInRange() ==> 1 < currentPage + 1 <= PageCount()
    {
      PaginationShown() && currentPage != PageCount()
    }

    predicate CurrentPageInRange()
      reads this
    {
      1 <= currentPage <= PageCount()
    }

    /** The page never leaves `[1, max(PageCount(), 1)]`, and the modal's element
        is mounted exactly while the modal is open. */
    ghost predicate Valid()
      reads this, modalVideo
    {
      && 1 <= currentPage <= Max(PageCount(), 1)
      && (modalVideo != null <==> ModalOpen())
    }

    /** The initial state: all reels, page 1, nothing selected, muted. */
    constructor ()
      ensures Valid()
      ensures activeCategory == ALL && currentPage == 1 && selectedReel == None && isMuted
      ensures modalVideo == null && CurrentPageInRange()
      ensures CurrentReels() == CATALOG[..ITEMS_PER_PAGE]
    {
      activeCategory := ALL;
      selectedReel := None;
      isMuted := true;
      currentPage := 1;
      modalVideo := null;
      CategoryPageCounts(ALL);
      PageInRange(CATALOG, 1);
    }

    /** `handleCategoryChange`: switch category and go back to page 1. */
    method HandleCategoryChange(cat: string)
      requires Valid()
      modifies this
      ensures Valid()
      ensures activeCategory == cat && currentPage == 1
      ensures selectedReel == old(selectedReel) && isMuted == old(isMuted) && modalVideo == old(modalVideo)
      ensures cat in CATEGORIES ==> CurrentPageInRange()
    {
      activeCategory := cat;
      currentPage := 1;
      if cat in CATEGORIES {
        CategoryPageCounts(cat);
      }
    }

    /** `handlePageChange`: set the page (the scroll back to the section is DOM I/O). */
    method HandlePageChange(page: int)
      modifies this
      ensures currentPage == page
      ensures activeCategory == old(activeCategory) && selectedReel == old(selectedReel)
      ensures isMuted == old(isMuted) && modalVideo == old(modalVideo)
    {
      currentPage := page;
    }

    /** A click on "Previous": only a rendered, enabled button reaches the handler. */
    method ClickPrevious()
      requires Valid()
      modifies this
      ensures Valid()
      ensures currentPage == if old(PreviousEnabled()) then old(currentPage) - 1 else old(currentPage)
      ensures activeCategory == old(activeCategory) && selectedReel == old(selectedReel)
      ensures isMuted == old(isMuted) && modalVideo == old(modalVideo)
      ensures old(CurrentPageInRange()) ==> CurrentPageInRange()
    {
      if PreviousEnabled() {
        HandlePageChange(currentPage - 1);
      }
    }

    /** A click on "Next": only a rendered, enabled button reaches the handler. */
    method ClickNext()
      requires Valid()
      modifies this
      ensures Valid()
      ensures currentPage == if old(NextEnabled()) then old(currentPage) + 1 else old(currentPage)
      ensures activeCategory == old(activeCategory) && selectedReel == old(selectedReel)
      ensures isMuted == old(isMuted) && modalVideo == old(modalVideo)
      ensures old(CurrentPageInRange()) ==> CurrentPageInRange()
    {
      if NextEnabled() {
        HandlePageChange(currentPage + 1);
      }
    }

    /** `onSelect` from a card: select the reel; if it resolves, the modal mounts
        an element that follows the mute flag and requests playback
        (`autoPlay`), which the browser may refuse. */
    method SelectReel(id: int, autoplayAllowed: bool)
      requires Valid()
      modifies this
      ensures Valid()
      ensures selectedReel == Some(id)
      ensures ModalOpen() <==> 1 <= id <= |CATALOG|
      ensures ModalOpen() ==> SelectedReelData() == Some(CATALOG[id - 1])
      ensures ModalOpen() ==> fresh(modalVideo) && modalVideo.muted == isMuted
                              && modalVideo.paused == !autoplayAllowed && modalVideo.currentTime == 0.0
      ensures activeCategory == old(activeCategory) && currentPage == old(currentPage) && isMuted == old(isMuted)
    {
      selectedReel := Some(id);
      ModalShownIffResolves(selectedReel);
      LookupById(id);
      if ModalOpen() {
        var v := new VideoElement(isMuted);
        v.Play(autoplayAllowed);
        modalVideo := v;
      } else {
        modalVideo := null;
      }
    }

    /** A click on a card of the current page: the card reports its reel's id
        to `onSelect`, and the modal opens on that very reel. */
    method ClickCard(card: ReelCard, autoplayAllowed: bool)
      requires Valid() && card.reel in CurrentReels()
      modifies this
      ensures Valid()
      ensures selectedReel == Some(card.reel.id)
      ensures ModalOpen() && SelectedReelData() == Some(card.reel)
      ensures fresh(modalVideo) && modalVideo.muted == isMuted && modalVideo.paused == !autoplayAllowed
      ensures activeCategory == old(activeCategory) && currentPage == old(currentPage) && isMuted == old(isMuted)
    {
      assert card.reel in CATALOG;
      CatalogIds();
      var id := card.Click();
      SelectReel(id, autoplayAllowed);
    }

    /** `toggleMute`: flip the flag, writing the flag's previous value onto the
        mounted element, as the handler does. */
    method ToggleMute()
      requires Valid()
      modifies this, modalVideo
      ensures Valid()
      ensures isMuted == !old(isMuted)
      ensures modalVideo == old(modalVideo)
      ensures modalVideo != null ==> modalVideo.muted == old(isMuted)
      ensures modalVideo != null ==> modalVideo.paused == old(modalVideo.paused)
                                     && modalVideo.currentTime == old(modalVideo.currentTime)
      ensures activeCategory == old(activeCategory) && currentPage == old(currentPage)
      ensures selectedReel == old(selectedReel)
    {
      var prev := isMuted;
      if modalVideo != null {
        modalVideo.muted := prev;
      }
      isMuted := !prev;
    }

    /** A click in the open modal. The backdrop and the close button dismiss it
        and unmount its element; the content pane swallows the click; the mute
        button (shown when the reel has a URL) toggles the mute flag. */
    method ModalClick(target: ModalTarget)
      requires Valid()
      modifies this, modalVideo
      ensures Valid()
      ensures activeCategory == old(activeCategory) && currentPage == old(currentPage)
      ensures !old(ModalOpen()) ==> selectedReel == old(selectedReel) && isMuted == old(isMuted)
      ensures old(ModalOpen()) && target in {Backdrop, CloseButton} ==>
                selectedReel == None && !ModalOpen() && modalVideo == null && isMuted == old(isMuted)
      ensures old(ModalOpen()) && target == ContentPane ==>
                selectedReel == old(selectedReel) && isMuted == old(isMuted) && ModalOpen()
                && modalVideo == old(modalVideo) && modalVideo.muted == old(modalVideo.muted)
                && modalVideo.paused == old(modalVideo.paused) && modalVideo.currentTime == old(modalVideo.currentTime)
      ensures old(ModalOpen()) && target == MuteButton ==>
                selectedReel == old(selectedReel) && isMuted == !old(isMuted) && ModalOpen()
                && modalVideo == old(modalVideo) && modalVideo.muted == old(isMuted)
                && modalVideo.paused == old(modalVideo.paused) && modalVideo.currentTime == old(modalVideo.currentTime)
      ensures modalVideo != null ==> modalVideo == old(modalVideo)
    {
      if ModalOpen() {
        match target {
          case Backdrop =>
            selectedReel := None;
            modalVideo := null;
          case CloseButton =>
            selectedReel := None;
            modalVideo := null;
          case ContentPane =>
          case MuteButton =>
            CatalogHasVideos();
            if SelectedReelData().value.videoUrl != "" {
              ToggleMute();
            }
        }
      }
    }
  }

  /** Toggling twice restores the flag; the element is left holding the
      opposite of the flag, since each toggle writes the value it replaces. */
  method ToggleMuteTwice(s: Showcase)
    requires s.Valid()
    modifies s, s.modalVideo
    ensures s.Valid()
    ensures s.isMuted == old(s.isMuted) && s.modalVideo == old(s.modalVideo)
    ensures s.modalVideo != null ==> s.modalVideo.muted == !s.isMuted
  {
    s.ToggleMute();
    s.ToggleMute();
  }
}
