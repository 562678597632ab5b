/**
 * The artwork record and the filter engine: a search term matched against
 * title and artist, and two exact-match selectors, applied as a stable filter
 * over the full list. Also the option lists offered by the two selectors.
 */
module Catalog {
  import opened Wrappers
  import opened Text
  import opened Ordering

  /**
   * One artwork. Title, artist and technique are always present; the other
   * fields may be absent, and JavaScript treats an absent field and an empty
   * string alike (both are falsy).
   */
  datatype Obra = Obra(
    titulo: string,
    artista: string,
    tecnica: string,
    tamanho: Option<string>,
    valor: Option<string>,
    imagem: Option<string>,
    descricao: Option<string>)

  /**
   * The predicate of the filter; `searchTerm` is the already lower-cased
   * search input, an empty selector imposes nothing.
   */
  predicate Matches(o: Obra, searchTerm: string, selectedArtist: string, selectedTechnique: string)
  {
    var matchesSearch := Contains(Lower(o.titulo), searchTerm) || Contains(Lower(o.artista), searchTerm);
    var matchesArtist := selectedArtist == "" || o.artista == selectedArtist;
    var matchesTechnique := selectedTechnique == "" || o.tecnica == selectedTechnique;
    matchesSearch && matchesArtist && matchesTechnique
  }

  /** `allObras.filter(...)`: the matching artworks, in their original order. */
  function Filter(xs: seq<Obra>, searchTerm: string, selectedArtist: string, selectedTechnique: string): seq<Obra>
  {
    if xs == [] then []
    else
      var rest := Filter(xs[1..], searchTerm, selectedArtist, selectedTechnique);
      if Matches(xs[0], searchTerm, selectedArtist, selectedTechnique) then [xs[0]] + rest else rest
  }

  /** `ys` is obtained from `xs` by deleting elements, without reordering. */
  ghost predicate IsSubsequence<T>(ys: seq<T>, xs: seq<T>)
    decreases |xs|
  {
    if ys == [] then true
    else if xs == [] then false
    else if ys[0] == xs[0] then IsSubsequence(ys[1..], xs[1..])
    else IsSubsequence(ys, xs[1..])
  }

  /** The filtered list keeps the original order: it is a subsequence of the full list. */
  lemma {:induction false} FilterIsSubsequence(xs: seq<Obra>, t: string, a: string, k: string)
    ensures IsSubsequence(Filter(xs, t, a, k), xs)
  {
    if xs != [] {
      FilterIsSubsequence(xs[1..], t, a, k);
      var rest := Filter(xs[1..], t, a, k);
      // When `xs[0]` is rejected, the head of `rest` matches and so differs from it.
      FilterAllMatch(xs[1..], t, a, k);
      assert rest != [] ==> rest[0] in rest;
    }
  }

  /** Everything the filter keeps satisfies the predicate. */
  lemma {:induction false} FilterAllMatch(xs: seq<Obra>, t: string, a: string, k: string)
    ensures forall o :: o in Filter(xs, t, a, k) ==> Matches(o, t, a, k)
  {
    if xs != [] {
      FilterAllMatch(xs[1..], t, a, k);
    }
  }

  /**
   * An artwork is kept as many times as it occurs when it matches, and not
   * at all otherwise: nothing is lost, duplicated or invented.
   */
  lemma {:induction false} FilterCount(xs: seq<Obra>, t: string, a: string, k: string, o: Obra)
    ensures multiset(Filter(xs, t, a, k))[o] == if Matches(o, t, a, k) then multiset(xs)[o] else 0
  {
    if xs != [] {
      FilterCount(xs[1..], t, a, k, o);
      assert xs == [xs[0]] + xs[1..];
    }
  }

  /** Soundness and completeness: an artwork is in the result exactly when it is in the list and matches. */
  lemma {:induction false} FilterMembership(xs: seq<Obra>, t: string, a: string, k: string, o: Obra)
    ensures o in Filter(xs, t, a, k) <==> o in xs && Matches(o, t, a, k)
  {
    FilterCount(xs, t, a, k, o);
    assert o in Filter(xs, t, a, k) <==> o in multiset(Filter(xs, t, a, k));
    assert o in xs <==> o in multiset(xs);
  }

  /** With an empty search and both selectors on "all", every artwork is kept, in order. */
  lemma {:induction false} FilterNoConstraint(xs: seq<Obra>)
    ensures Filter(xs, "", "", "") == xs
  {
    if xs != [] {
      ContainsEmpty(Lower(xs[0].titulo));
      FilterNoConstraint(xs[1..]);
    }
  }

  /** A chosen artist is honoured by every result. */
  lemma {:induction false} ArtistSelectorSound(xs: seq<Obra>, t: string, a: string, k: string)
    requires a != ""
    ensures forall o :: o in Filter(xs, t, a, k) ==> o.artista == a
  {
    FilterAllMatch(xs, t, a, k);
  }

  /** A chosen technique is honoured by every result. */
  lemma {:induction false} TechniqueSelectorSound(xs: seq<Obra>, t: string, a: string, k: string)
    requires k != ""
    ensures forall o :: o in Filter(xs, t, a, k) ==> o.tecnica == k
  {
    FilterAllMatch(xs, t, a, k);
  }

  /** The search term occurs in the lower-cased title or artist of a matching artwork. */
  lemma MatchOccurs(o: Obra, t: string, a: string, k: string)
    requires Matches(o, t, a, k)
    ensures Occurs(t, Lower(o.titulo)) || Occurs(t, Lower(o.artista))
  {
    var title, artist := Lower(o.titulo), Lower(o.artista);
    if Contains(title, t) {
      var i := ContainsOccurs(title, t);
    } else {
      var i := ContainsOccurs(artist, t);
    }
  }

  /** The search term is found in the lower-cased title or artist of every result. */
  lemma SearchSound(xs: seq<Obra>, t: string, a: string, k: string)
    ensures forall o :: o in Filter(xs, t, a, k) ==> Occurs(t, Lower(o.titulo)) || Occurs(t, Lower(o.artista))
  {
    FilterAllMatch(xs, t, a, k);
    forall o | o in Filter(xs, t, a, k)
      ensures Occurs(t, Lower(o.titulo)) || Occurs(t, Lower(o.artista))
    {
      MatchOccurs(o, t, a, k);
    }
  }

  /** The filter's condition restated with occurrences in place of the left-to-right scan. */
  ghost predicate Selected(o: Obra, t: string, a: string, k: string)
  {
    && (Occurs(t, Lower(o.titulo)) || Occurs(t, Lower(o.artista)))
    && (a == "" || o.artista == a)
    && (k == "" || o.tecnica == k)
  }

  /** The scanning predicate agrees with the declarative one. */
  lemma MatchesIffSelected(o: Obra, t: string, a: string, k: string)
    ensures Matches(o, t, a, k) <==> Selected(o, t, a, k)
  {
    ContainsIff(Lower(o.titulo), t);
    ContainsIff(Lower(o.artista), t);
  }

  /**
   * The result holds exactly the artworks of the list whose lower-cased title
   * or artist contains the term and that satisfy both non-empty selectors.
   */
  lemma FilterSelects(xs: seq<Obra>, t: string, a: string, k: string)
    ensures forall o :: o in Filter(xs, t, a, k) <==> o in xs && Selected(o, t, a, k)
  {
    forall o
      ensures o in Filter(xs, t, a, k) <==> o in xs && Selected(o, t, a, k)
    {
      FilterMembership(xs, t, a, k, o);
      MatchesIffSelected(o, t, a, k);
    }
  }

  /** Filtering twice with the same criteria changes nothing. */
  lemma {:induction false} FilterIdempotent(xs: seq<Obra>, t: string, a: string, k: string)
    ensures Filter(Filter(xs, t, a, k), t, a, k) == Filter(xs, t, a, k)
  {
    if xs != [] {
      FilterIdempotent(xs[1..], t, a, k);
    }
  }

  /** `allObras.map(obra => obra.artista)`. */
  function Artists(xs: seq<Obra>): seq<string>
  {
    if xs == [] then [] else [xs[0].artista] + Artists(xs[1..])
  }

  /** `allObras.map(obra => obra.tecnica)`. */
  function Techniques(xs: seq<Obra>): seq<string>
  {
    if xs == [] then [] else [xs[0].tecnica] + Techniques(xs[1..])
  }

  /** The artist column names exactly the artists of the list. */
  lemma {:induction false} ArtistsSpec(xs: seq<Obra>)
    ensures forall v :: v in Artists(xs) <==> exists o :: o in xs && o.artista == v
  {
    if xs != [] {
      ArtistsSpec(xs[1..]);
      assert forall o :: o in xs <==> o == xs[0] || o in xs[1..];
    }
  }

  /** The technique column names exactly the techniques of the list. */
  lemma {:induction false} TechniquesSpec(xs: seq<Obra>)
    ensures forall v :: v in Techniques(xs) <==> exists o :: o in xs && o.tecnica == v
  {
    if xs != [] {
      TechniquesSpec(xs[1..]);
      assert forall o :: o in xs <==> o == xs[0] || o in xs[1..];
    }
  }

  /** The artist selector's options: "all" (the empty value) and then each artist once, ascending. */
  function ArtistOptions(xs: seq<Obra>): seq<string>
  {
    [""] + SortedDistinct(Artists(xs))
  }

  /** The technique selector's options: "all" and then each technique once, ascending. */
  function TechniqueOptions(xs: seq<Obra>): seq<string>
  {
    [""] + SortedDistinct(Techniques(xs))
  }

  /**
   * The artist options start with "all", are strictly ascending after it,
   * and name exactly the artists occurring in the list.
   */
  lemma ArtistOptionsSpec(xs: seq<Obra>)
    ensures ArtistOptions(xs)[0] == ""
    ensures StrictlySorted(ArtistOptions(xs)[1..])
    ensures forall v :: v in ArtistOptions(xs)[1..] <==> exists o :: o in xs && o.artista == v
  {
    var vs := Artists(xs);
    SortedDistinctSpec(vs);
    ArtistsSpec(xs);
    assert ArtistOptions(xs)[1..] == SortedDistinct(vs);
  }

  /**
   * The technique options start with "all", are strictly ascending after it,
   * and name exactly the techniques occurring in the list.
   */
  lemma TechniqueOptionsSpec(xs: seq<Obra>)
    ensures TechniqueOptions(xs)[0] == ""
    ensures StrictlySorted(TechniqueOptions(xs)[1..])
    ensures forall v :: v in TechniqueOptions(xs)[1..] <==> exists o :: o in xs && o.tecnica == v
  {
    var vs := Techniques(xs);
    SortedDistinctSpec(vs);
    TechniquesSpec(xs);
    assert TechniqueOptions(xs)[1..] == SortedDistinct(vs);
  }
}
