/** Search mode of the home page: the raw `/tmdb/search` response is reduced
    to at most 24 cards `{tmdb_id, title, poster_url}` and handed to the grid. */
module Search {
  import opened Py
  import opened Seqs
  import Grid

  const TmdbImg: string := "https://image.tmdb.org/t/p/w500"
  const MaxResults: nat := 24

  /** The card the page builds for one search hit. */
  datatype Card = Card(tmdbId: Value, title: Value, posterUrl: Option<string>)

  /** The card as the dict handed to `poster_grid`. */
  function AsValue(c: Card): Value {
    Dict(map["tmdb_id" := c.tmdbId,
             "title" := c.title,
             "poster_url" := match c.posterUrl case Some(u) => Str(u) case None => Null])
  }

  function AsValues(cs: seq<Card>): (vs: seq<Value>)
    ensures |vs| == |cs|
    ensures forall k :: 0 <= k < |cs| ==> vs[k] == AsValue(cs[k])
  {
    seq(|cs|, k requires 0 <= k < |cs| => AsValue(cs[k]))
  }

  /** A hit is kept when it is a dict and `m.get("id")` is truthy: a missing
      id, None, 0, "" or False all drop it. */
  predicate HasId(m: Value) {
    m.Dict? && Truthy(Get(m.fields, "id", Null))
  }

  /** `{"tmdb_id": m["id"], "title": m.get("title"), "poster_url": ...}`. */
  function ToCard(m: Value): Card
    requires HasId(m)
  {
    var path := Get(m.fields, "poster_path", Null);
    Card(m.fields["id"],
         Get(m.fields, "title", Null),
         if Truthy(path) then Some(TmdbImg + Display(path)) else None)
  }

  /** The elements `for m in data.get("results", [])[:24]` visits. A
      non-dict response has no `.get`; slicing None, a bool, an int or a dict
      raises; slicing a string yields its first 24 characters. */
  function Candidates(data: Value): (r: PyResult<seq<Value>>)
    ensures r.Ok? ==> |r.value| <= MaxResults
    ensures r.Raises? <==>
              !data.Dict? || !(Get(data.fields, "results", List([])).List? || Get(data.fields, "results", List([])).Str?)
    ensures data.Dict? && Get(data.fields, "results", List([])).List? ==>
              var rs := Get(data.fields, "results", List([])).items;
              r == Ok(rs[..if |rs| <= MaxResults then |rs| else MaxResults])
    ensures data.Dict? && Get(data.fields, "results", List([])).Str? ==>
              var s := Get(data.fields, "results", List([])).s;
              && r.Ok?
              && |r.value| == (if |s| <= MaxResults then |s| else MaxResults)
              && forall i :: 0 <= i < |r.value| ==> r.value[i] == Str([s[i]])
  {
    if !data.Dict? then Raises
    else match Get(data.fields, "results", List([]))
      case List(items) =>
        assert items[..|items|] == items;
        Ok(if |items| <= MaxResults then items else items[..MaxResults])
      case Str(s) =>
        var n := if |s| <= MaxResults then |s| else MaxResults;
        Ok(seq(n, i requires 0 <= i < n => Str([s[i]])))
      case _ => Raises
  }

  /** The loop body applied to the candidates in order: `m.get` raises on a
      non-dict, a hit with a truthy id is appended as a card. */
  function Project(items: seq<Value>): (r: PyResult<seq<Card>>)
    ensures r.Ok? <==> forall k :: 0 <= k < |items| ==> items[k].Dict?
    ensures r.Ok? ==> |r.value| <= |items|
  {
    if items == [] then Ok([])
    else match Project(items[..|items| - 1])
      case Raises => Raises
      case Ok(cards) =>
        var m := items[|items| - 1];
        if !m.Dict? then Raises
        else if HasId(m) then Ok(cards + [ToCard(m)])
        else Ok(cards)
  }

  /** The cards of lines 175-182 for a response `data`. */
  function SearchCards(data: Value): (r: PyResult<seq<Card>>)
    ensures r.Ok? ==> |r.value| <= MaxResults
  {
    match Candidates(data)
    case Raises => Raises
    case Ok(items) => Project(items)
  }

  /** The loop that builds `results` by appending. */
  method ProjectResults(data: Value) returns (r: PyResult<seq<Card>>)
    ensures r == SearchCards(data)
  {
    var candidates := Candidates(data);
    if candidates.Raises? {
      return Raises;
    }
    var items := candidates.value;
    var results: seq<Card> := [];
    for i := 0 to |items|
      invariant forall k :: 0 <= k < i ==> items[k].Dict?
      invariant Project(items[..i]) == Ok(results)
    {
      var m := items[i];
      assert items[..i + 1][..i] == items[..i];
      if !m.Dict? {
        return Raises;
      }
      if Truthy(Get(m.fields, "id", Null)) {
        var path := Get(m.fields, "poster_path", Null);
        var card := Card(m.fields["id"], Get(m.fields, "title", Null),
                         if Truthy(path) then Some(TmdbImg + Display(m.fields["poster_path"])) else None);
        results := results + [card];
      }
    }
    assert items[..|items|] == items;
    return Ok(results);
  }

  // ---------------------------------------------------------------------
  // What the projection keeps

  /** The cards are exactly the hits with a truthy id, in their order: card j
      comes from the j-th such position of the candidates. */
  lemma {:induction false} ProjectSelects(items: seq<Value>)
    requires Project(items).Ok?
    ensures var cs := Project(items).value;
            var ps := Positions(items, HasId, 0);
            && |cs| == |ps|
            && forall j :: 0 <= j < |cs| ==>
                 ps[j] < |items| && HasId(items[ps[j]]) && cs[j] == ToCard(items[ps[j]])
  {
    if items != [] {
      var s, x := items[..|items| - 1], items[|items| - 1];
      ProjectSelects(s);
      assert items == s + [x];
      PositionsSnoc(s, x, HasId, 0);
      var ps, cs := Positions(s, HasId, 0), Project(s).value;
      forall j | 0 <= j < |cs|
        ensures ps[j] < |items| && HasId(items[ps[j]]) && cs[j] == ToCard(items[ps[j]])
      {
        assert items[ps[j]] == s[ps[j]];
      }
    }
  }

  /** The search results are a subsequence of the first 24 raw results that
      keeps every hit with a truthy id and nothing else. */
  lemma SearchCardsSelect(data: Value)
    requires SearchCards(data).Ok?
    ensures Candidates(data).Ok?
    ensures var items := Candidates(data).value;
            var cs := SearchCards(data).value;
            var ps := Positions(items, HasId, 0);
            && |items| <= MaxResults
            && (data.Dict? && Get(data.fields, "results", List([])).List? ==>
                  var rs := Get(data.fields, "results", List([])).items;
                  items == rs[..if |rs| <= MaxResults then |rs| else MaxResults])
            && |cs| == |ps|
            && (forall j :: 0 <= j < |cs| ==>
                  ps[j] < |items| && HasId(items[ps[j]]) && cs[j] == ToCard(items[ps[j]]))
            && (forall i :: 0 <= i < |items| ==> (HasId(items[i]) <==> i in ps))
  {
    ProjectSelects(Candidates(data).value);
    PositionsSelect(Candidates(data).value, HasId, 0);
  }

  // ---------------------------------------------------------------------
  // The search screen

  /** What the search mode shows once a search was sent: "Search failed."
      when there is an error or no data, a traceback when projecting raises,
      otherwise the grid of the cards (keys prefixed "search"). */
  datatype Screen = SearchFailed | SearchRaised | SearchGrid(grid: Grid.Outcome)

  function SearchScreen(data: Value, err: Value, cols: nat): Screen
    requires cols >= 1
  {
    if Truthy(err) || !Truthy(data) then SearchFailed
    else match SearchCards(data)
      case Raises => SearchRaised
      case Ok(cs) => SearchGrid(Grid.Grid(AsValues(cs), cols, "search"))
  }

  /** Every card the projection builds can be rendered by the grid: it is a
      dict that has a tmdb_id. */
  lemma CardRenderable(c: Card)
    ensures Grid.Renderable(AsValue(c))
  {
  }

  /** How a kept hit appears in the grid: its poster is shown exactly when the
      hit had a truthy poster_path, the URL being TMDB_IMG followed by it; the
      title shown is `str(m.get("title"))`, so a hit without a title is
      displayed as "None", not "Untitled", because the card always has the
      key; and the button key carries the hit's id. */
  lemma HitRendering(m: Value, idx: nat)
    requires HasId(m)
    ensures var cell := Grid.MakeCell("search", AsValue(ToCard(m)), idx);
            var path := Get(m.fields, "poster_path", Null);
            && (cell.poster.Some? <==> Truthy(path))
            && (cell.poster.Some? ==> cell.poster.value == Str(TmdbImg + Display(path)))
            && cell.title == Display(Get(m.fields, "title", Null))
            && ("title" !in m.fields ==> cell.title == "None")
            && cell.key == Grid.Key("search", idx, m.fields["id"])
  {
    var path := Get(m.fields, "poster_path", Null);
    if Truthy(path) {
      assert |TmdbImg + Display(path)| > 0;
    }
  }

  /** The search grid never stops with an exception: it shows "No movies
      found." when no hit was kept and otherwise lays out the projected cards. */
  lemma SearchGridNeverCrashes(data: Value, err: Value, cols: nat)
    requires cols >= 1
    requires SearchScreen(data, err, cols).SearchGrid?
    ensures SearchCards(data).Ok?
    ensures var vs := AsValues(SearchCards(data).value);
            Grid.AllRenderable(vs) &&
            SearchScreen(data, err, cols).grid ==
              if vs == [] then Grid.NoMovies else Grid.Laid(Grid.Layout(vs, cols, "search"))
  {
    var cs := SearchCards(data).value;
    forall k | 0 <= k < |cs| ensures Grid.Renderable(AsValues(cs)[k]) {
      CardRenderable(cs[k]);
    }
  }
}
