/** The "Because You Watched This" section of the detail page: the embedded
    `tmdb` summaries of the recommendations, handed to the grid. */
module Similar {
  import opened Py
  import opened Seqs
  import Grid

  /** An entry contributes when it is a dict and `x.get("tmdb")` is truthy. */
  predicate HasEmbedded(x: Value) {
    x.Dict? && Truthy(Get(x.fields, "tmdb", Null))
  }

  /** `[x["tmdb"] for x in xs if x.get("tmdb")]` over a list of entries,
      evaluated left to right; `x.get` raises on a non-dict entry. */
  function KeepEmbedded(xs: seq<Value>): (r: PyResult<seq<Value>>)
    ensures r.Ok? <==> forall k :: 0 <= k < |xs| ==> xs[k].Dict?
    ensures r.Ok? ==> |r.value| <= |xs| && forall j :: 0 <= j < |r.value| ==> Truthy(r.value[j])
  {
    if xs == [] then Ok([])
    else match KeepEmbedded(xs[..|xs| - 1])
      case Raises => Raises
      case Ok(kept) =>
        var x := xs[|xs| - 1];
        if !x.Dict? then Raises
        else if Truthy(Get(x.fields, "tmdb", Null)) then Ok(kept + [x.fields["tmdb"]])
        else Ok(kept)
  }

  /** The comprehension over `bundle.get("tfidf_recommendations", [])`. A
      non-dict bundle has no `.get`; iterating a string yields one-character
      strings and iterating a dict yields its keys, neither of which has a
      `.get`; None, a bool or an int cannot be iterated. */
  function SimilarCards(bundle: Value): (r: PyResult<seq<Value>>)
    ensures r.Ok? ==> forall j :: 0 <= j < |r.value| ==> Truthy(r.value[j])
    ensures r.Ok? && r.value != [] ==> bundle.Dict? && Get(bundle.fields, "tfidf_recommendations", List([])).List?
  {
    if !bundle.Dict? then Raises
    else match Get(bundle.fields, "tfidf_recommendations", List([]))
      case List(items) => KeepEmbedded(items)
      case Str(s) => if s == "" then Ok([]) else Raises
      case Dict(fields) => if fields == map[] then Ok([]) else Raises
      case _ => Raises
  }

  /** The kept summaries are exactly the embedded objects of the entries that
      have one, in entry order. */
  lemma {:induction false} KeepEmbeddedSelects(xs: seq<Value>)
    requires KeepEmbedded(xs).Ok?
    ensures var out := KeepEmbedded(xs).value;
            var ps := Positions(xs, HasEmbedded, 0);
            && |out| == |ps|
            && forall j :: 0 <= j < |out| ==>
                 ps[j] < |xs| && HasEmbedded(xs[ps[j]]) && out[j] == xs[ps[j]].fields["tmdb"]
  {
    if xs != [] {
      var s, x := xs[..|xs| - 1], xs[|xs| - 1];
      KeepEmbeddedSelects(s);
      assert xs == s + [x];
      PositionsSnoc(s, x, HasEmbedded, 0);
      var ps, out := Positions(s, HasEmbedded, 0), KeepEmbedded(s).value;
      forall j | 0 <= j < |out|
        ensures ps[j] < |xs| && HasEmbedded(xs[ps[j]]) && out[j] == xs[ps[j]].fields["tmdb"]
      {
        assert xs[ps[j]] == s[ps[j]];
      }
    }
  }

  /** What the section shows: nothing when the bundle is falsy (a failed
      request gives None), a traceback when the comprehension raises, and
      otherwise the grid of the kept summaries (keys prefixed "tfidf"). */
  datatype Section = Hidden | SectionRaised | Shown(grid: Grid.Outcome)

  function SimilarSection(bundle: Value, cols: nat): Section
    requires cols >= 1
  {
    if !Truthy(bundle) then Hidden
    else match SimilarCards(bundle)
      case Raises => SectionRaised
      case Ok(cards) => Shown(Grid.Grid(cards, cols, "tfidf"))
  }

  /** A bundle that arrived but has no usable recommendation is not silent:
      the grid says "No movies found.". That holds for a missing, empty-string
      or empty-dict recommendations value and for a list of dict entries none
      of which carries a summary. */
  lemma NoRecommendationsIsNotSilent(bundle: Value, cols: nat)
    requires cols >= 1 && Truthy(bundle) && bundle.Dict?
    requires var recs := Get(bundle.fields, "tfidf_recommendations", List([]));
             || recs == Str("")
             || recs == Dict(map[])
             || (recs.List? && forall k :: 0 <= k < |recs.items| ==> recs.items[k].Dict? && !HasEmbedded(recs.items[k]))
    ensures SimilarSection(bundle, cols) == Shown(Grid.NoMovies)
  {
    var recs := Get(bundle.fields, "tfidf_recommendations", List([]));
    if recs.List? {
      KeepEmbeddedSelects(recs.items);
      PositionsSelect(recs.items, HasEmbedded, 0);
    }
  }
}
