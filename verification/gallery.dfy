/**
 * The page state behind the event handlers: the full and the filtered list,
 * the three filter controls, the selector options, the rendered cards with
 * their position tags, and the detail overlay. Each handler runs the filter
 * and the redraw as one synchronous step.
 */
module Gallery {
  import opened Wrappers
  import opened Text
  import opened Catalog
  import opened Presenter

  /** The overlay's `style.display`: `'none'` or `'flex'`. */
  datatype Display = DisplayNone | DisplayFlex

  /** The cards `renderGallery(xs)` draws, one per artwork in order. */
  function Cards(xs: seq<Obra>): seq<Card>
  {
    if xs == [] then [] else Cards(xs[..|xs| - 1]) + [Card(|xs| - 1, xs[|xs| - 1])]
  }

  /** One card per artwork. */
  lemma {:induction false} CardsLength(xs: seq<Obra>)
    ensures |Cards(xs)| == |xs|
  {
    if xs != [] {
      CardsLength(xs[..|xs| - 1]);
    }
  }

  /** Card `k` is drawn from artwork `k` and tagged `k`. */
  lemma {:induction false} CardAt(xs: seq<Obra>, k: nat)
    requires k < |xs|
    ensures k < |Cards(xs)| && Cards(xs)[k].index == k && Cards(xs)[k].obra == xs[k]
  {
    var n := |xs| - 1;
    var init := xs[..n];
    CardsLength(init);
    if k < n {
      CardAt(init, k);
      assert init[k] == xs[k];
    }
  }

  /** There is one card per artwork, and card `k` shows artwork `k` and is tagged `k`. */
  lemma {:induction false} CardsSpec(xs: seq<Obra>)
    ensures |Cards(xs)| == |xs|
    ensures forall k :: 0 <= k < |xs| ==> Cards(xs)[k].index == k && Cards(xs)[k].obra == xs[k]
  {
    CardsLength(xs);
    forall k | 0 <= k < |xs|
      ensures Cards(xs)[k].index == k && Cards(xs)[k].obra == xs[k]
    {
      CardAt(xs, k);
    }
  }

  class GalleryPage {
    /** `allObras`: the artworks, fixed once loaded. */
    var allObras: seq<Obra>
    /** `filteredObras`: the artworks passing the current filters. */
    var filteredObras: seq<Obra>
    /** The values of the search input and the two selectors. */
    var searchValue: string
    var artistValue: string
    var techniqueValue: string
    /** The option values of the two selectors, "all" (empty) first. */
    var artistOptions: seq<string>
    var techniqueOptions: seq<string>
    /** The cards in the gallery container. */
    var cards: seq<Card>
    var noResultsHidden: bool
    var loadingHidden: bool
    /** The detail overlay: its display and its last contents. */
    var modalDisplay: Display
    var detail: Option<DetailView>
    /** `artistBios`: biography text by artist name. */
    const artistBios: map<string, string>

    /** Between events the page shows the filter of the current control values, fully drawn. */
    ghost predicate Valid()
      reads this
    {
      && artistOptions == ArtistOptions(allObras)
      && techniqueOptions == TechniqueOptions(allObras)
      && artistValue in artistOptions
      && techniqueValue in techniqueOptions
      && filteredObras == Filter(allObras, Lower(searchValue), artistValue, techniqueValue)
      && cards == Cards(filteredObras)
      && |cards| == |filteredObras|
      && noResultsHidden == (|filteredObras| > 0)
      && loadingHidden
    }

    /**
     * `init` with the data present: load, fill the selectors (which resets
     * both to "all") and apply the filter. The search text `search0` and the
     * overlay's display `display0` are whatever the page markup starts with;
     * `init` does not touch them.
     */
    constructor (obrasData: seq<Obra>, bios: map<string, string>, search0: string, display0: Display)
      ensures Valid()
      ensures allObras == obrasData && artistBios == bios
      ensures searchValue == search0 && artistValue == "" && techniqueValue == ""
      ensures filteredObras == Filter(obrasData, Lower(search0), "", "")
      ensures search0 == "" ==> filteredObras == obrasData && |cards| == |obrasData|
      ensures modalDisplay == display0 && detail == None
    {
      allObras := obrasData;
      artistBios := bios;
      searchValue, artistValue, techniqueValue := search0, "", "";
      filteredObras := [];
      artistOptions, techniqueOptions := [], [];
      cards := [];
      noResultsHidden, loadingHidden := false, false;
      modalDisplay := display0;
      detail := None;
      new;
      PopulateFilters();
      ApplyFiltersAndSearch();
      FilterNoConstraint(allObras);
    }

    /** `populateFilters`: "all" followed by the sorted distinct artists, likewise the techniques. */
    method PopulateFilters()
      modifies this`artistOptions, this`techniqueOptions
      ensures artistOptions == ArtistOptions(allObras)
      ensures techniqueOptions == TechniqueOptions(allObras)
    {
      var artists := Ordering.SortedDistinct(Artists(allObras));
      var techniques := Ordering.SortedDistinct(Techniques(allObras));
      var options := [""];
      for i := 0 to |artists|
        invariant options == [""] + artists[..i]
      {
        options := options + [artists[i]];
      }
      artistOptions := options;
      options := [""];
      for i := 0 to |techniques|
        invariant options == [""] + techniques[..i]
      {
        options := options + [techniques[i]];
      }
      techniqueOptions := options;
    }

    /** `renderGallery(xs)`: clears the cards, draws one per artwork, flags an empty result. */
    method RenderGallery(xs: seq<Obra>)
      modifies this`cards, this`noResultsHidden
      ensures cards == Cards(xs)
      ensures noResultsHidden == (|xs| > 0)
    {
      noResultsHidden := |xs| > 0;
      var drawn := [];
      for index := 0 to |xs|
        invariant drawn == Cards(xs[..index])
      {
        assert xs[..index + 1][..index] == xs[..index];
        drawn := drawn + [Card(index, xs[index])];
      }
      assert xs[..|xs|] == xs;
      cards := drawn;
    }

    /**
     * `applyFiltersAndSearch`: recompute `filteredObras` from the controls
     * and redraw it; the loading indicator ends hidden.
     */
    method ApplyFiltersAndSearch()
      requires artistOptions == ArtistOptions(allObras) && techniqueOptions == TechniqueOptions(allObras)
      requires artistValue in artistOptions && techniqueValue in techniqueOptions
      modifies this`filteredObras, this`cards, this`noResultsHidden, this`loadingHidden
      ensures Valid()
      ensures filteredObras == Filter(allObras, Lower(searchValue), artistValue, techniqueValue)
    {
      loadingHidden := false;
      cards := [];
      var searchTerm := Lower(searchValue);
      filteredObras := Filter(allObras, searchTerm, artistValue, techniqueValue);
      loadingHidden := true;
      RenderGallery(filteredObras);
      CardsSpec(filteredObras);
    }

    /** Typing in the search box. */
    method OnSearchInput(value: string)
      requires Valid()
      modifies this`searchValue, this`filteredObras, this`cards, this`noResultsHidden, this`loadingHidden
      ensures Valid() && searchValue == value
      ensures filteredObras == Filter(allObras, Lower(value), artistValue, techniqueValue)
    {
      searchValue := value;
      ApplyFiltersAndSearch();
    }

    /** Choosing an artist; a select can only take one of its option values. */
    method OnArtistChange(value: string)
      requires Valid() && value in artistOptions
      modifies this`artistValue, this`filteredObras, this`cards, this`noResultsHidden, this`loadingHidden
      ensures Valid() && artistValue == value
      ensures filteredObras == Filter(allObras, Lower(searchValue), value, techniqueValue)
      ensures value != "" ==> forall o :: o in filteredObras ==> o.artista == value
    {
      artistValue := value;
      ApplyFiltersAndSearch();
      if value != "" {
        ArtistSelectorSound(allObras, Lower(searchValue), value, techniqueValue);
      }
    }

    /** Choosing a technique. */
    method OnTechniqueChange(value: string)
      requires Valid() && value in techniqueOptions
      modifies this`techniqueValue, this`filteredObras, this`cards, this`noResultsHidden, this`loadingHidden
      ensures Valid() && techniqueValue == value
      ensures filteredObras == Filter(allObras, Lower(searchValue), artistValue, value)
      ensures value != "" ==> forall o :: o in filteredObras ==> o.tecnica == value
    {
      techniqueValue := value;
      ApplyFiltersAndSearch();
      if value != "" {
        TechniqueSelectorSound(allObras, Lower(searchValue), artistValue, value);
      }
    }

    /** The clear button: all three controls emptied, the full list shown again in its order. */
    method ClearFilters()
      requires Valid()
      modifies this`searchValue, this`artistValue, this`techniqueValue, this`filteredObras, this`cards, this`noResultsHidden, this`loadingHidden
      ensures Valid()
      ensures searchValue == "" && artistValue == "" && techniqueValue == ""
      ensures filteredObras == allObras && |cards| == |allObras|
    {
      searchValue := "";
      artistValue := "";
      techniqueValue := "";
      ApplyFiltersAndSearch();
      FilterNoConstraint(allObras);
    }

    /** The artwork a card's details button stands for: the one at its tag in the current filtered list. */
    method ResolveCard(position: nat) returns (o: Obra)
      requires Valid() && position < |cards|
      ensures o == filteredObras[position]
    {
      CardsSpec(filteredObras);
      var index := cards[position].index;
      o := filteredObras[index];
    }

    /** `openModal(obra)`: fill the overlay with the artwork and show it. */
    method OpenModal(o: Obra)
      modifies this`detail, this`modalDisplay
      ensures detail == Some(Present(o, artistBios)) && modalDisplay == DisplayFlex
    {
      detail := Some(Present(o, artistBios));
      modalDisplay := DisplayFlex;
    }

    /**
     * A click in the gallery: `target` is the position of the card whose
     * details button was hit, or `None` for a click elsewhere.
     */
    method OnGalleryClick(target: Option<nat>)
      requires Valid()
      requires target.Some? ==> target.value < |cards|
      modifies this`detail, this`modalDisplay
      ensures Valid()
      ensures target.Some? ==> detail == Some(Present(filteredObras[target.value], artistBios))
                               && modalDisplay == DisplayFlex
      ensures target.None? ==> detail == old(detail) && modalDisplay == old(modalDisplay)
    {
      if target.Some? {
        var o := ResolveCard(target.value);
        OpenModal(o);
      }
    }

    /** The close button. */
    method CloseModal()
      modifies this`modalDisplay
      ensures modalDisplay == DisplayNone
    {
      modalDisplay := DisplayNone;
    }

    /** A click anywhere in the window closes the overlay when it lands on its backdrop. */
    method OnWindowClick(onBackdrop: bool)
      modifies this`modalDisplay
      ensures modalDisplay == if onBackdrop then DisplayNone else old(modalDisplay)
    {
      if onBackdrop {
        CloseModal();
      }
    }
  }
}
