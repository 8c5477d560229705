/** `poster_grid`: lays a list of cards out row by row in `cols` columns and
    gives every card's "Open" button its own widget key. */
module Grid {
  import opened Py

  /** One filled grid cell: the card placed there, the poster shown (None
      renders "No poster"), the title text and the button's widget key. */
  datatype Cell = Cell(card: Value, poster: Option<Value>, title: string, key: string)

  /** What one call of `poster_grid` shows: the "No movies found." notice, an
      uncaught exception raised while rendering the card at index `at`, or the
      rows of filled cells (the last row may be partial). */
  datatype Outcome = NoMovies | Crashed(at: nat) | Laid(rows: seq<seq<Cell>>)

  /** `(len(cards) + cols - 1) // cols`. */
  function RowCount(n: nat, cols: nat): nat
    requires cols >= 1
  {
    (n + cols - 1) / cols
  }

  function Min(a: int, b: int): int {
    if a <= b then a else b
  }

  /** A card can be rendered when `m.get("poster_url")` finds a dict and
      `m['tmdb_id']` finds the key; otherwise Python raises. */
  predicate Renderable(m: Value) {
    m.Dict? && "tmdb_id" in m.fields
  }

  /** The button key `f"{key_prefix}_{idx}_{m['tmdb_id']}"`. */
  function Key(prefix: string, idx: nat, id: Value): string {
    prefix + "_" + Decimal(idx) + "_" + Display(id)
  }

  /** The cell for card `m` at 1-based position `idx`. The title is
      `m.get('title', 'Untitled')`, so the default is used only when the key
      is missing. */
  function MakeCell(prefix: string, m: Value, idx: nat): Cell
    requires Renderable(m)
  {
    var poster := Get(m.fields, "poster_url", Null);
    Cell(m,
         if Truthy(poster) then Some(poster) else None,
         Display(Get(m.fields, "title", Str("Untitled"))),
         Key(prefix, idx, m.fields["tmdb_id"]))
  }

  predicate AllRenderable(cards: seq<Value>) {
    forall k :: 0 <= k < |cards| ==> Renderable(cards[k])
  }

  /** The cells of cards lo until hi, card k getting 1-based position k + 1. */
  function RowCells(cards: seq<Value>, prefix: string, lo: nat, hi: nat): (cs: seq<Cell>)
    requires lo <= hi <= |cards|
    requires forall k :: lo <= k < hi ==> Renderable(cards[k])
    ensures |cs| == hi - lo
  {
    seq(hi - lo, j requires 0 <= j < hi - lo => MakeCell(prefix, cards[lo + j], lo + j + 1))
  }

  lemma RowCellsSnoc(cards: seq<Value>, prefix: string, lo: nat, hi: nat)
    requires lo <= hi < |cards|
    requires forall k :: lo <= k <= hi ==> Renderable(cards[k])
    ensures RowCells(cards, prefix, lo, hi + 1) == RowCells(cards, prefix, lo, hi) + [MakeCell(prefix, cards[hi], hi + 1)]
  {
  }

  /** The cells of all cards in input order. */
  function Cells(cards: seq<Value>, prefix: string): (cs: seq<Cell>)
    requires AllRenderable(cards)
    ensures |cs| == |cards|
  {
    RowCells(cards, prefix, 0, |cards|)
  }

  /** Reference layout: row r holds the cards from r*cols up to (but
      excluding) min(r*cols + cols, n). */
  function Layout(cards: seq<Value>, cols: nat, prefix: string): seq<seq<Cell>>
    requires cols >= 1 && AllRenderable(cards)
  {
    var n := |cards|;
    seq(RowCount(n, cols), r requires 0 <= r < RowCount(n, cols) =>
      RowStartBelow(n, cols, r);
      RowCells(cards, prefix, r * cols, Min(r * cols + cols, n)))
  }

  /** The first card from index `from` on that cannot be rendered, if any. */
  function FirstUnrenderable(cards: seq<Value>, from: nat): (r: Option<nat>)
    requires from <= |cards|
    ensures r.None? ==> forall k :: from <= k < |cards| ==> Renderable(cards[k])
    ensures r.Some? ==> (from <= r.value < |cards| && !Renderable(cards[r.value])
                         && forall k :: from <= k < r.value ==> Renderable(cards[k]))
    decreases |cards| - from
  {
    if from == |cards| then None
    else if !Renderable(cards[from]) then Some(from)
    else FirstUnrenderable(cards, from + 1)
  }

  /** What `poster_grid(cards, cols, key_prefix)` shows. */
  function Grid(cards: seq<Value>, cols: nat, prefix: string): (g: Outcome)
    requires cols >= 1
    ensures g == NoMovies <==> |cards| == 0
    ensures g.Crashed? ==> (g.at < |cards| && !Renderable(cards[g.at])
                           && forall k :: 0 <= k < g.at ==> Renderable(cards[k]))
    ensures g.Laid? <==> |cards| > 0 && AllRenderable(cards)
  {
    if |cards| == 0 then NoMovies
    else match FirstUnrenderable(cards, 0)
      case Some(k) => Crashed(k)
      case None => Laid(Layout(cards, cols, prefix))
  }

  // ---------------------------------------------------------------------
  // The rendering loop

  /** The nested loop of `poster_grid`: a running index walks the cards
      row-major, the inner loop breaks once the cards run out. */
  method PosterGrid(cards: seq<Value>, cols: nat, prefix: string) returns (g: Outcome)
    requires cols >= 1
    ensures g == Grid(cards, cols, prefix)
  {
    var n := |cards|;
    if n == 0 {
      return NoMovies;
    }
    var rows := (n + cols - 1) / cols;
    var idx := 0;
    var laid: seq<seq<Cell>> := [];
    for r := 0 to rows
      invariant |laid| == r
      invariant idx == Min(r * cols, n)
      invariant forall k :: 0 <= k < idx ==> Renderable(cards[k])
      invariant forall i :: 0 <= i < r ==>
                  RowBounds(n, cols, i) && Min(i * cols + cols, n) <= idx &&
                  laid[i] == RowCells(cards, prefix, i * cols, Min(i * cols + cols, n))
    {
      RowStartBelow(n, cols, r);
      ghost var start := idx;
      var row: seq<Cell> := [];
      for c := 0 to cols
        invariant idx == start + c <= n
        invariant forall k :: 0 <= k < idx ==> Renderable(cards[k])
        invariant row == RowCells(cards, prefix, start, idx)
      {
        if idx >= n {
          break;
        }
        var m := cards[idx];
        idx := idx + 1;
        if !m.Dict? {
          return Crashed(idx - 1);
        }
        var poster := Get(m.fields, "poster_url", Null);
        if "tmdb_id" !in m.fields {
          return Crashed(idx - 1);
        }
        var key := prefix + "_" + Decimal(idx) + "_" + Display(m.fields["tmdb_id"]);
        var title := Display(Get(m.fields, "title", Str("Untitled")));
        var cell := Cell(m, if Truthy(poster) then Some(poster) else None, title, key);
        assert cell == MakeCell(prefix, m, idx);
        RowCellsSnoc(cards, prefix, start, idx - 1);
        row := row + [cell];
      }
      NextRowStart(n, cols, r, start, idx);
      laid := laid + [row];
    }
    RowsCoverCards(n, cols);
    g := Laid(laid);
    LaidIsLayout(cards, cols, prefix, laid);
  }

  ghost predicate RowBounds(n: nat, cols: nat, i: nat) {
    i * cols < n
  }

  lemma NextRowStart(n: nat, cols: nat, r: nat, start: nat, idx: nat)
    requires cols >= 1 && start == r * cols < n
    requires idx == Min(start + cols, n)
    ensures idx == Min((r + 1) * cols, n)
    ensures RowBounds(n, cols, r)
  {
    assert (r + 1) * cols == r * cols + cols;
  }

  // ---------------------------------------------------------------------
  // Arithmetic of the row count

  /** The row count is the ceiling of n / cols: enough rows for all cards,
      and one row fewer would not be. */
  lemma RowCountIsCeiling(n: nat, cols: nat)
    requires cols >= 1
    ensures RowCount(n, cols) * cols >= n
    ensures n > 0 ==> (RowCount(n, cols) - 1) * cols < n
    ensures n == 0 ==> RowCount(n, cols) == 0
  {
    var q := RowCount(n, cols);
    var rem := (n + cols - 1) % cols;
    assert n + cols - 1 == q * cols + rem;
  }

  lemma RowStartBelow(n: nat, cols: nat, r: nat)
    requires cols >= 1 && r < RowCount(n, cols)
    ensures r * cols < n
  {
    RowCountIsCeiling(n, cols);
    MulMonotone(r, RowCount(n, cols) - 1, cols);
  }

  lemma RowsCoverCards(n: nat, cols: nat)
    requires cols >= 1
    ensures Min(RowCount(n, cols) * cols, n) == n
  {
    RowCountIsCeiling(n, cols);
  }

  lemma MulMonotone(a: nat, b: nat, c: nat)
    requires a <= b
    ensures a * c <= b * c
  {
  }

  /** The rows collected by the loop are the reference layout. */
  lemma LaidIsLayout(cards: seq<Value>, cols: nat, prefix: string, laid: seq<seq<Cell>>)
    requires cols >= 1 && AllRenderable(cards)
    requires |laid| == RowCount(|cards|, cols)
    requires forall i :: 0 <= i < |laid| ==>
               RowBounds(|cards|, cols, i) && laid[i] == RowCells(cards, prefix, i * cols, Min(i * cols + cols, |cards|))
    ensures laid == Layout(cards, cols, prefix)
  {
  }

  // ---------------------------------------------------------------------
  // Properties of the layout

  /** Row shapes: ceil(n / cols) rows, none empty, none wider than cols, every
      row but the last full, and the last holding n mod cols cards when that
      is nonzero (a full row otherwise). */
  lemma LayoutShape(cards: seq<Value>, cols: nat, prefix: string)
    requires cols >= 1 && AllRenderable(cards)
    ensures var l := Layout(cards, cols, prefix);
      && |l| == RowCount(|cards|, cols)
      && (forall r :: 0 <= r < |l| ==> 1 <= |l[r]| <= cols)
      && (forall r :: 0 <= r < |l| - 1 ==> |l[r]| == cols)
      && (|cards| > 0 ==> |l[|l| - 1]| == if |cards| % cols != 0 then |cards| % cols else cols)
  {
    var n := |cards|;
    var l := Layout(cards, cols, prefix);
    forall r | 0 <= r < |l| ensures 1 <= |l[r]| <= cols && (r < |l| - 1 ==> |l[r]| == cols) {
      RowWidth(cards, cols, prefix, r);
    }
    if n > 0 {
      var last := |l| - 1;
      RowWidth(cards, cols, prefix, last);
      RowCountIsCeiling(n, cols);
      LastRowWidth(n, cols, last);
    }
  }

  /** Row r starts below the number of cards and holds the cards up to the
      next row start or the end, whichever comes first. */
  lemma RowWidth(cards: seq<Value>, cols: nat, prefix: string, r: nat)
    requires cols >= 1 && AllRenderable(cards) && r < RowCount(|cards|, cols)
    ensures |Layout(cards, cols, prefix)| == RowCount(|cards|, cols)
    ensures r * cols < |cards|
    ensures |Layout(cards, cols, prefix)[r]| == Min(r * cols + cols, |cards|) - r * cols
    ensures 1 <= |Layout(cards, cols, prefix)[r]| <= cols
    ensures r + 1 < RowCount(|cards|, cols) ==> |Layout(cards, cols, prefix)[r]| == cols
  {
    var n := |cards|;
    RowStartBelow(n, cols, r);
    if r + 1 < RowCount(n, cols) {
      RowStartBelow(n, cols, r + 1);
      assert (r + 1) * cols == r * cols + cols;
    }
  }

  lemma LastRowWidth(n: nat, cols: nat, last: nat)
    requires cols >= 1 && n > 0
    requires last * cols < n <= last * cols + cols
    ensures Min(last * cols + cols, n) - last * cols == if n % cols != 0 then n % cols else cols
  {
    var a := last * cols;
    if n - a < cols {
      DivIsUnique(n, cols, last, n - a);
    } else {
      assert (last + 1) * cols == a + cols;
      DivIsUnique(n, cols, last + 1, 0);
    }
  }

  /** Quotient and remainder are the only such pair. */
  lemma DivIsUnique(n: nat, cols: nat, q: nat, rem: nat)
    requires cols >= 1 && rem < cols && n == q * cols + rem
    ensures n / cols == q && n % cols == rem
  {
    var q', rem' := n / cols, n % cols;
    assert n == q' * cols + rem';
    if q' < q {
      MulMonotone(q' + 1, q, cols);
    } else if q < q' {
      MulMonotone(q + 1, q', cols);
    }
  }

  /** Card k lands in row k div cols, column k mod cols, with button position k + 1. */
  lemma LayoutPlacesCard(cards: seq<Value>, cols: nat, prefix: string, k: nat)
    requires cols >= 1 && AllRenderable(cards) && k < |cards|
    ensures var l := Layout(cards, cols, prefix);
      && k / cols < |l| && k % cols < |l[k / cols]|
      && l[k / cols][k % cols] == MakeCell(prefix, cards[k], k + 1)
      && l[k / cols][k % cols].card == cards[k]
  {
    var n := |cards|;
    var r, c := k / cols, k % cols;
    assert k == r * cols + c;
    RowCountIsCeiling(n, cols);
    if r >= RowCount(n, cols) {
      MulMonotone(RowCount(n, cols), r, cols);
    }
    assert r < RowCount(n, cols);
  }

  /** Conversely, the cell in row r, column c holds card r*cols + c. */
  lemma LayoutCellSource(cards: seq<Value>, cols: nat, prefix: string, r: nat, c: nat)
    requires cols >= 1 && AllRenderable(cards)
    requires r < |Layout(cards, cols, prefix)| && c < |Layout(cards, cols, prefix)[r]|
    ensures c < cols && r * cols + c < |cards|
    ensures Layout(cards, cols, prefix)[r][c] == MakeCell(prefix, cards[r * cols + c], r * cols + c + 1)
  {
    RowStartBelow(|cards|, cols, r);
  }

  function Flatten(rows: seq<seq<Cell>>): seq<Cell> {
    if rows == [] then [] else Flatten(rows[..|rows| - 1]) + rows[|rows| - 1]
  }

  function CardsOf(cs: seq<Cell>): (cards: seq<Value>)
    ensures |cards| == |cs|
    ensures forall k :: 0 <= k < |cs| ==> cards[k] == cs[k].card
  {
    seq(|cs|, k requires 0 <= k < |cs| => cs[k].card)
  }

  /** Reading the rows one after another gives back every card exactly once,
      in input order. */
  lemma LayoutFlattensToCards(cards: seq<Value>, cols: nat, prefix: string)
    requires cols >= 1 && AllRenderable(cards)
    ensures Flatten(Layout(cards, cols, prefix)) == Cells(cards, prefix)
    ensures CardsOf(Flatten(Layout(cards, cols, prefix))) == cards
  {
    var n := |cards|;
    var l := Layout(cards, cols, prefix);
    FlattenPrefix(cards, cols, prefix, |l|);
    RowsCoverCards(n, cols);
    assert l[..|l|] == l;
  }

  lemma {:induction false} FlattenPrefix(cards: seq<Value>, cols: nat, prefix: string, r: nat)
    requires cols >= 1 && AllRenderable(cards)
    requires r <= |Layout(cards, cols, prefix)|
    ensures Flatten(Layout(cards, cols, prefix)[..r]) == Cells(cards, prefix)[..Min(r * cols, |cards|)]
  {
    var n := |cards|;
    var l := Layout(cards, cols, prefix);
    var cs := Cells(cards, prefix);
    if r > 0 {
      FlattenPrefix(cards, cols, prefix, r - 1);
      RowStartBelow(n, cols, r - 1);
      var a := (r - 1) * cols;
      var b := Min(a + cols, n);
      assert a + cols == r * cols;
      assert l[..r][..r - 1] == l[..r - 1];
      assert Flatten(l[..r]) == Flatten(l[..r - 1]) + l[r - 1];
      assert l[r - 1] == RowCells(cards, prefix, a, b);
      CellsSlice(cards, prefix, a, b);
      assert cs[..a] + cs[a..b] == cs[..b];
    }
  }

  lemma CellsSlice(cards: seq<Value>, prefix: string, lo: nat, hi: nat)
    requires AllRenderable(cards) && lo <= hi <= |cards|
    ensures Cells(cards, prefix)[lo..hi] == RowCells(cards, prefix, lo, hi)
  {
  }

  /** A Key determines the 1-based position it was built from. */
  lemma KeyDeterminesPosition(prefix: string, i: nat, a: Value, j: nat, b: Value)
    requires Key(prefix, i, a) == Key(prefix, j, b)
    ensures i == j
  {
    var ki, kj := Key(prefix, i, a), Key(prefix, j, b);
    var q := |prefix| + 1;
    assert ki[q..] == Decimal(i) + "_" + Display(a);
    assert kj[q..] == Decimal(j) + "_" + Display(b);
    DigitsBeforeUnderscore(Decimal(i), Display(a), Decimal(j), Display(b));
    DecimalInjective(i, j);
  }

  /** The length of the run of digits a string starts with. */
  function DigitRun(s: string): nat {
    if s != [] && IsDigit(s[0]) then 1 + DigitRun(s[1..]) else 0
  }

  lemma {:induction false} DigitRunStopsAtUnderscore(x: string, rest: string)
    requires forall k :: 0 <= k < |x| ==> IsDigit(x[k])
    requires rest != [] && rest[0] == '_'
    ensures DigitRun(x + rest) == |x|
  {
    if x != [] {
      assert (x + rest)[1..] == x[1..] + rest;
      DigitRunStopsAtUnderscore(x[1..], rest);
    }
  }

  lemma DigitsBeforeUnderscore(x: string, y: string, x': string, y': string)
    requires forall k :: 0 <= k < |x| ==> IsDigit(x[k])
    requires forall k :: 0 <= k < |x'| ==> IsDigit(x'[k])
    requires x + "_" + y == x' + "_" + y'
    ensures x == x'
  {
    var s := x + "_" + y;
    assert s == x + ("_" + y) == x' + ("_" + y');
    DigitRunStopsAtUnderscore(x, "_" + y);
    DigitRunStopsAtUnderscore(x', "_" + y');
    assert x == s[..|x|];
    assert x' == s[..|x'|];
  }

  /** Two different positions never share a button key, whatever the ids. */
  lemma CellKeysDistinct(prefix: string, a: Value, b: Value, i: nat, j: nat)
    requires Renderable(a) && Renderable(b) && i != j
    ensures MakeCell(prefix, a, i).key != MakeCell(prefix, b, j).key
  {
    if MakeCell(prefix, a, i).key == MakeCell(prefix, b, j).key {
      KeyDeterminesPosition(prefix, i, a.fields["tmdb_id"], j, b.fields["tmdb_id"]);
    }
  }

  /** The buttons of one grid, read row by row, have pairwise distinct
      widget keys. */
  lemma LayoutKeysDistinct(cards: seq<Value>, cols: nat, prefix: string, i: nat, j: nat)
    requires cols >= 1 && AllRenderable(cards)
    requires i < |cards| && j < |cards| && i != j
    ensures |Flatten(Layout(cards, cols, prefix))| == |cards|
    ensures Flatten(Layout(cards, cols, prefix))[i].key != Flatten(Layout(cards, cols, prefix))[j].key
  {
    LayoutFlattensToCards(cards, cols, prefix);
    CellKeysDistinct(prefix, cards[i], cards[j], i + 1, j + 1);
  }
}
