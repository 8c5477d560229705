/** The page's view state: `view` and `selected_tmdb_id` in the Streamlit
    session state, the URL query parameters, and the two navigation actions. */
module Navigation {
  import opened Py

  datatype View = Home | Details

  /** The session keys the page uses (None: the key is not in the session
      state yet) and the query parameters of the URL. */
  datatype Snapshot = Snapshot(view: Option<View>, selected: Option<Value>, query: map<string, string>)

  /** A new browser session opened on a URL with query parameters `url`. */
  function Fresh(url: map<string, string>): Snapshot {
    Snapshot(None, None, url)
  }

  /** app.py:61-64, run at the top of every script run: each key is set only
      when it is missing. */
  function WithDefaults(s: Snapshot): Snapshot {
    Snapshot(if s.view.None? then Some(Home) else s.view,
             if s.selected.None? then Some(Null) else s.selected,
             s.query)
  }

  /** `goto_home`: view "home", query parameters cleared; the selection stays. */
  function AfterGoHome(s: Snapshot): Snapshot {
    s.(view := Some(Home), query := map[])
  }

  /** `goto_details(id)`: view "details", the id selected, and the query
      parameters `view` and `id` set (other parameters stay). */
  function AfterGoDetails(s: Snapshot, id: Value): Snapshot {
    s.(view := Some(Details), selected := Some(id),
       query := s.query["view" := "details"]["id" := Display(id)])
  }

  predicate Initialised(s: Snapshot) {
    s.view.Some? && s.selected.Some?
  }

  /** The details view always has a selection, and the URL names it. */
  predicate Consistent(s: Snapshot) {
    s.view == Some(Details) ==>
      && s.selected.Some?
      && "view" in s.query && s.query["view"] == "details"
      && "id" in s.query && s.query["id"] == Display(s.selected.value)
  }

  /** Which page a run renders (app.py:158): the home page when view is
      "home", and otherwise the details of the selected id. */
  datatype Page = HomePage | DetailsPage(id: Value)

  function Route(s: Snapshot): Page
    requires Initialised(s)
  {
    if s.view.value == Home then HomePage else DetailsPage(s.selected.value)
  }

  /** What the user does during one script run: nothing, a "Home" / "Back to
      Home" click, or an "Open" (or "Surprise Me") click that opens an id. */
  datatype Action = Stay | ClickHome | Open(id: Value)

  /** One script run: the defaults, then the navigation the click triggers
      (which ends the run with `st.rerun()`). */
  function Step(s: Snapshot, a: Action): Snapshot {
    var d := WithDefaults(s);
    match a
    case Stay => d
    case ClickHome => AfterGoHome(d)
    case Open(id) => AfterGoDetails(d, id)
  }

  function Steps(s: Snapshot, actions: seq<Action>): Snapshot
    decreases |actions|
  {
    if actions == [] then s else Steps(Step(s, actions[0]), actions[1..])
  }

  // ---------------------------------------------------------------------
  // Properties of the transitions

  /** The first run of a session shows the home page with no movie selected. */
  lemma FirstRunIsHome(url: map<string, string>)
    ensures WithDefaults(Fresh(url)) == Snapshot(Some(Home), Some(Null), url)
    ensures Route(WithDefaults(Fresh(url))) == HomePage
  {
  }

  /** Once set, the defaults never overwrite the state again. */
  lemma DefaultsKeepState(s: Snapshot)
    requires Initialised(s)
    ensures WithDefaults(s) == s
  {
  }

  /** After `goto_details(id)` the details page of id is shown and the URL
      carries it; starting from no foreign parameters (in particular after
      `goto_home`), the parameters are exactly {view: "details", id: str(id)}. */
  lemma GoDetailsShowsDetails(s: Snapshot, id: Value)
    ensures Route(AfterGoDetails(s, id)) == DetailsPage(id)
    ensures Consistent(AfterGoDetails(s, id))
    ensures s.query.Keys <= {"view", "id"} ==>
              AfterGoDetails(s, id).query == map["view" := "details", "id" := Display(id)]
    ensures AfterGoDetails(AfterGoHome(s), id).query == map["view" := "details", "id" := Display(id)]
  {
    var want := map["view" := "details", "id" := Display(id)];
    if s.query.Keys <= {"view", "id"} {
      assert AfterGoDetails(s, id).query.Keys == want.Keys;
    }
    assert AfterGoDetails(AfterGoHome(s), id).query.Keys == want.Keys;
  }

  /** `goto_home` shows the home page with no query parameters and keeps the
      previously selected id. */
  lemma GoHomeKeepsSelection(s: Snapshot)
    requires Initialised(s)
    ensures Route(AfterGoHome(s)) == HomePage
    ensures AfterGoHome(s).query == map[]
    ensures AfterGoHome(s).selected == s.selected
    ensures Consistent(AfterGoHome(s))
  {
  }

  /** Opening a movie and going back home leaves that movie selected: the
      selection is not reset to None. */
  lemma BackHomeRemembersMovie(url: map<string, string>, id: Value)
    ensures Steps(Fresh(url), [Open(id), ClickHome]).selected == Some(id)
    ensures Steps(Fresh(url), [Open(id), ClickHome]).view == Some(Home)
  {
    var acts := [Open(id), ClickHome];
    var s1 := Step(Fresh(url), Open(id));
    assert acts[1..] == [ClickHome];
    assert [ClickHome][1..] == [];
    assert Steps(Fresh(url), acts) == Steps(s1, [ClickHome]) == Steps(Step(s1, ClickHome), []);
  }

  lemma StepKeepsConsistent(s: Snapshot, a: Action)
    requires Consistent(s)
    ensures Consistent(Step(s, a)) && Initialised(Step(s, a))
  {
  }

  /** Every state a session reaches is consistent, and after the first run
      both session keys are set, so routing never reads a missing key. */
  lemma {:induction false} StepsKeepConsistent(s: Snapshot, actions: seq<Action>)
    requires Consistent(s)
    ensures Consistent(Steps(s, actions))
    ensures actions != [] ==> Initialised(Steps(s, actions))
    decreases |actions|
  {
    if actions != [] {
      StepKeepsConsistent(s, actions[0]);
      StepsKeepConsistent(Step(s, actions[0]), actions[1..]);
      if actions[1..] == [] {
        assert Steps(s, actions) == Step(s, actions[0]);
      }
    }
  }

  lemma SessionsStayConsistent(url: map<string, string>, actions: seq<Action>)
    ensures Consistent(Steps(Fresh(url), actions))
    ensures actions != [] ==> Initialised(Steps(Fresh(url), actions))
  {
    StepsKeepConsistent(Fresh(url), actions);
  }

  // ---------------------------------------------------------------------
  // The session object the actions update in place

  class Session {
    var view: Option<View>
    var selected: Option<Value>
    var query: map<string, string>

    function Snap(): Snapshot
      reads this
    {
      Snapshot(view, selected, query)
    }

    /** A new session: no keys set yet, the URL's query parameters. */
    constructor (url: map<string, string>)
      ensures Snap() == Fresh(url)
    {
      view := None;
      selected := None;
      query := url;
    }

    /** app.py:61-64: sets each missing key. */
    method InitDefaults()
      modifies this
      ensures view == if old(view).None? then Some(Home) else old(view)
      ensures selected == if old(selected).None? then Some(Null) else old(selected)
      ensures query == old(query)
      ensures Snap() == WithDefaults(old(Snap()))
      ensures old(Consistent(Snap())) ==> Consistent(Snap())
    {
      if view.None? {
        view := Some(Home);
      }
      if selected.None? {
        selected := Some(Null);
      }
    }

    method GotoHome()
      modifies this
      ensures view == Some(Home) && selected == old(selected) && query == map[]
      ensures Snap() == AfterGoHome(old(Snap()))
      ensures Consistent(Snap())
    {
      view := Some(Home);
      query := map[];
    }

    method GotoDetails(id: Value)
      modifies this
      ensures view == Some(Details) && selected == Some(id)
      ensures query == old(query)["view" := "details"]["id" := Display(id)]
      ensures Snap() == AfterGoDetails(old(Snap()), id)
      ensures Consistent(Snap())
    {
      view := Some(Details);
      selected := Some(id);
      query := query["view" := "details"];
      query := query["id" := Display(id)];
    }
  }
}
