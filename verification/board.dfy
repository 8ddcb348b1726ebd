/** The slide-show side of BBoardActivity.py over plain values: the slide
    index and its wrap-around, the prev/next buttons, the description
    lookup of `_show_slide`, the thumbnail grid, the thumbnail drag-swap and
    the write-back of descriptions to the datastore (a map from object id
    to metadata). Drawing is left out; what is kept is which slide is shown,
    which buttons are active, and where each thumbnail goes. */
module Board {
  import opened Outcomes
  import opened Slides

  /** A datastore entry: its object id and metadata. */
  datatype DsObject = DsObject(objectId: string, metadata: map<string, Value>)

  /** One `_thumbs` entry `[sprite, x, y, i]`; sprites are named by number. */
  datatype Thumb = Thumb(sprite: nat, x: int, y: int, index: nat)

  /** The activity's slide-show state: `slides`, the starred `dsobjects`,
      `_thumbs`, the index `i`, `_thumbnail_mode` and `_current_slide`. */
  datatype Board = Board(
    slides: seq<Slide>,
    dsobjects: seq<DsObject>,
    thumbs: seq<Thumb>,
    i: int,
    thumbnailMode: bool,
    currentSlide: int)

  // ---------------------------------------------------------------------
  // The slide index

  /** The index `_show_slide(direction)` settles on among `n` slides: it
      steps by `direction`, then wraps below 0 to the last slide and past
      the end to 0. With no slides the index is left alone. */
  function ShowIndex(n: nat, i: int, direction: int): (j: int)
    ensures n == 0 ==> j == i
    ensures n > 0 ==> 0 <= j < n
    ensures n > 0 && 0 <= i + direction < n ==> j == i + direction
    ensures n > 0 && i + direction < 0 ==> j == n - 1
    ensures n > 0 && i + direction >= n ==> j == 0
  {
    if n == 0 then i
    else
      var k := i + direction;
      if k < 0 then n - 1 else if k > n - 1 then 0 else k
  }

  /** From a valid index, stepping forward is rotation modulo `n` and
      stepping back undoes it. */
  lemma ShowIndexRotates(n: nat, i: int)
    requires 0 <= i < n
    ensures ShowIndex(n, i, 1) == (i + 1) % n
    ensures ShowIndex(n, ShowIndex(n, i, 1), -1) == i
    ensures ShowIndex(n, ShowIndex(n, i, -1), 1) == i
  {
  }

  /** `_next_cb` as written: it increments the index and `_show_slide`
      then steps it once more. */
  function NextIndexAsWritten(n: nat, i: int): int
  {
    if i < n - 1 then ShowIndex(n, i + 1, 1) else i
  }

  /** `_prev_cb` as written: it decrements and `_show_slide(-1)` steps back
      again. */
  function PrevIndexAsWritten(n: nat, i: int): int
  {
    if i > 0 then ShowIndex(n, i - 1, -1) else i
  }

  /** So "next" never shows the following slide: it skips one, or wraps to
      the first; with two slides it stays on slide 0. "Prev" from slide 1
      jumps to the last slide. */
  lemma NextSkipsAsWritten(n: nat, i: int)
    requires 0 <= i < n - 1
    ensures NextIndexAsWritten(n, i) != i + 1
    ensures NextIndexAsWritten(n, i) == (if i + 2 < n then i + 2 else 0)
    ensures NextIndexAsWritten(2, 0) == 0
    ensures n >= 2 ==> PrevIndexAsWritten(n, 1) == n - 1
  {
  }

  /** The intended "next": move to the following slide, if there is one. */
  function NextIndex(n: nat, i: int): (j: int)
    ensures 0 <= i < n - 1 ==> j == i + 1
    ensures 0 < n && i < n - 1 ==> 0 <= j < n
    ensures i >= n - 1 ==> j == i
  {
    if i < n - 1 then ShowIndex(n, i + 1, 0) else i
  }

  /** The intended "prev": move to the preceding slide, if there is one. */
  function PrevIndex(n: nat, i: int): (j: int)
    ensures 0 < i < n ==> j == i - 1
    ensures 0 < i && 0 < n ==> 0 <= j < n
    ensures i <= 0 ==> j == i
  {
    if i > 0 then ShowIndex(n, i - 1, 0) else i
  }

  /** The intended buttons keep the index valid and undo each other. */
  lemma NextPrevInverse(n: nat, i: int)
    requires 0 <= i < n
    ensures 0 <= NextIndex(n, i) < n && 0 <= PrevIndex(n, i) < n
    ensures i < n - 1 ==> PrevIndex(n, NextIndex(n, i)) == i
    ensures i > 0 ==> NextIndex(n, PrevIndex(n, i)) == i
  {
  }

  // ---------------------------------------------------------------------
  // What `_show_slide` puts on screen

  /** The description area: hidden, or showing a label. */
  datatype Label = Hidden | Shows(text: Value)

  /** The help screen for an empty deck, or one slide with the state of the
      prev/next buttons and the description area. */
  datatype Screen = Help | SlideView(prevActive: bool, nextActive: bool, description: Label)

  /** Can `_show_slide` and `_show_thumb` draw this image? `None` is
      skipped and a pixbuf is scaled with `scale_simple`; any other value,
      such as the image field of a received record, has no `scale_simple`
      and raises `AttributeError`. */
  predicate Drawable(image: Value)
  {
    image.Null? || image.Pixbuf?
  }

  /** The description lookup of `_show_slide` as written: it asks whether
      `dsobjects[i]` (not the slide) has a description, which raises
      `IndexError` for a slide without a datastore entry at that index.
      When the entry has one, the slide's own description goes into a
      GTK text buffer, whose `set_text` raises `TypeError` for anything but
      a string (a slide without a description holds `None`). */
  function DescriptionAsWritten(slides: seq<Slide>, dsobjects: seq<DsObject>, i: nat): (r: Result<Label>)
    requires i < |slides|
    ensures r.Err? <==> i >= |dsobjects| || ("description" in dsobjects[i].metadata && !slides[i].desc.Str?)
    ensures i >= |dsobjects| ==> r == Err(IndexError)
    ensures i < |dsobjects| && r.Err? ==> r.error == TypeError
    ensures r.Ok? ==> (r.value.Shows? <==> "description" in dsobjects[i].metadata)
    ensures r.Ok? && r.value.Shows? ==> r.value.text == slides[i].desc
  {
    if i >= |dsobjects| then Err(IndexError)
    else if "description" in dsobjects[i].metadata then
      if slides[i].desc.Str? then Ok(Shows(slides[i].desc)) else Err(TypeError)
    else Ok(Hidden)
  }

  /** The intended lookup: show the slide's own description when it has
      one, that is when it holds a string. */
  function Description(s: Slide): (l: Label)
    ensures l.Shows? <==> s.desc.Str?
    ensures l.Shows? ==> l.text == s.desc
  {
    if s.desc.Str? then Shows(s.desc) else Hidden
  }

  /** The slide `_setup_workspace` builds for a starred entry: owned, with
      the entry's id as uid and its title and description, `Null` where
      the metadata has none. */
  function SlideFromEntry(ds: DsObject, colors: Value, image: Value): (s: Slide)
    ensures s.owner && s.uid == Str(ds.objectId)
    ensures s.desc != Null <==> "description" in ds.metadata && ds.metadata["description"] != Null
  {
    Slide(true, Str(ds.objectId), colors,
          if "title" in ds.metadata then ds.metadata["title"] else Null,
          image,
          if "description" in ds.metadata then ds.metadata["description"] else Null)
  }

  /** Where the slides are exactly the starred entries in their original
      order (and every stored description is a string), the lookup as
      written and the intended one agree. */
  lemma DescriptionAgreesOnLocalDeck(slides: seq<Slide>, dsobjects: seq<DsObject>, colors: Value, images: seq<Value>, i: nat)
    requires |slides| == |dsobjects| == |images|
    requires forall k :: 0 <= k < |slides| ==> slides[k] == SlideFromEntry(dsobjects[k], colors, images[k])
    requires forall k :: 0 <= k < |dsobjects| && "description" in dsobjects[k].metadata ==>
      dsobjects[k].metadata["description"].Str?
    requires i < |slides|
    ensures DescriptionAsWritten(slides, dsobjects, i) == Ok(Description(slides[i]))
  {
    assert slides[i] == SlideFromEntry(dsobjects[i], colors, images[i]);
  }

  /** A slide received from a peer sits past the starred entries, so
      showing it raises. */
  lemma RemoteSlideDescriptionRaises(slides: seq<Slide>, dsobjects: seq<DsObject>, fields: seq<Value>)
    requires |slides| == |dsobjects|
    requires Accepts(slides, fields)
    ensures DescriptionAsWritten(Load(slides, fields), dsobjects, |slides|) == Err(IndexError)
  {
  }

  /** The result of `_show_slide`: the index it leaves and the screen, or
      the exception raised after the index was already updated. */
  datatype Shown = Shown(i: int, screen: Result<Screen>)

  /** `_show_slide(direction)` as written. */
  function ShowSlide(b: Board, direction: int): (s: Shown)
    ensures |b.slides| == 0 ==> s == Shown(b.i, Ok(Help))
    ensures |b.slides| > 0 ==> 0 <= s.i < |b.slides| && s.i == ShowIndex(|b.slides|, b.i, direction)
    ensures |b.slides| > 0 && !Drawable(b.slides[s.i].image) ==> s.screen == Err(AttributeError)
    ensures |b.slides| > 0 && Drawable(b.slides[s.i].image) ==>
      (s.screen.Err? <==> DescriptionAsWritten(b.slides, b.dsobjects, s.i).Err?)
    ensures |b.slides| > 0 && Drawable(b.slides[s.i].image) && s.screen.Err? ==>
      s.screen.error == DescriptionAsWritten(b.slides, b.dsobjects, s.i).error
    ensures |b.slides| > 0 && s.screen.Ok? ==>
      s.screen.value.SlideView? && s.screen.value.description == DescriptionAsWritten(b.slides, b.dsobjects, s.i).value
    ensures s.screen.Ok? && s.screen.value.SlideView? ==>
      (s.screen.value.prevActive <==> s.i != 0) &&
      (s.screen.value.nextActive <==> s.i != |b.slides| - 1)
  {
    if |b.slides| == 0 then Shown(b.i, Ok(Help))
    else
      var j := ShowIndex(|b.slides|, b.i, direction);
      if !Drawable(b.slides[j].image) then Shown(j, Err(AttributeError))
      else match DescriptionAsWritten(b.slides, b.dsobjects, j)
      case Err(e) => Shown(j, Err(e))
      case Ok(shown) => Shown(j, Ok(SlideView(j != 0, j != |b.slides| - 1, shown)))
  }

  /** After a drop the datastore entries no longer line up with the
      slides: of two starred entries where only the second has a
      description, dropping thumbnail 0 on thumbnail 1 and then showing
      slide 0 hands `None` to the text buffer. */
  lemma DropThenShowRaises(colors: Value, image: Image)
    ensures var e0 := DsObject("a", map[]);
      var e1 := DsObject("b", map["description" := Str("d")]);
      var b := Board([SlideFromEntry(e0, colors, Pixbuf(image)), SlideFromEntry(e1, colors, Null)], [e0, e1],
                     [Thumb(0, 0, 0, 0), Thumb(1, 0, 0, 1)], 0, true, 0);
      var d := DropOnThumb(b, 0, 1);
      d.raised.None? && ShowSlide(b, 0).screen.Ok? && ShowSlide(d.board, 0).screen == Err(TypeError)
  {
  }

  /** Showing that received slide raises as well. A decoded record holds
      no pixbuf, so an image field other than `None` fails in
      `scale_simple` with `AttributeError` before the description lookup;
      with no image, the lookup's `IndexError` escapes. */
  lemma RemoteSlideShowRaises(b: Board, fields: seq<Value>)
    requires |b.slides| == |b.dsobjects|
    requires Accepts(b.slides, fields) && !fields[4].Pixbuf?
    ensures var shown := ShowSlide(b.(slides := Load(b.slides, fields), i := |b.slides|), 0);
      shown.i == |b.slides| && shown.screen == Err(if fields[4].Null? then IndexError else AttributeError)
  {
  }

  /** For instance, one starred entry and then the received record
      `["u", [], "t", "d", "aGk="]`, whose image field is a string: showing
      the received slide raises `AttributeError`. */
  lemma ReceivedImageRaises(colors: Value, image: Image)
    ensures var e := DsObject("a", map[]);
      var b := Board([SlideFromEntry(e, colors, Pixbuf(image))], [e], [], 0, false, 0);
      var fields := [Str("u"), List([]), Str("t"), Str("d"), Str("aGk=")];
      ShowSlide(b.(slides := Load(b.slides, fields), i := 1), 0).screen == Err(AttributeError)
  {
  }

  /** A state change and the exception that escaped, if any. */
  datatype Step = Step(board: Board, raised: Option<PyError>)

  /** `_next_cb` as written: whatever `_show_slide` raises escapes it. */
  function NextCb(b: Board): (st: Step)
    ensures st.board == b.(i := NextIndexAsWritten(|b.slides|, b.i))
    ensures st.raised.Some? <==>
      b.i < |b.slides| - 1 && |b.slides| > 0 &&
      (!Drawable(b.slides[st.board.i].image) || DescriptionAsWritten(b.slides, b.dsobjects, st.board.i).Err?)
    ensures st.raised.Some? ==>
      st.raised.value == (if !Drawable(b.slides[st.board.i].image) then AttributeError
                          else DescriptionAsWritten(b.slides, b.dsobjects, st.board.i).error)
  {
    if b.i < |b.slides| - 1 then
      var s := ShowSlide(b.(i := b.i + 1), 1);
      Step(b.(i := s.i), if s.screen.Err? then Some(s.screen.error) else None)
    else Step(b, None)
  }

  /** `_prev_cb` as written: whatever `_show_slide` raises escapes it. */
  function PrevCb(b: Board): (st: Step)
    ensures st.board == b.(i := PrevIndexAsWritten(|b.slides|, b.i))
    ensures st.raised.Some? <==>
      b.i > 0 && |b.slides| > 0 &&
      (!Drawable(b.slides[st.board.i].image) || DescriptionAsWritten(b.slides, b.dsobjects, st.board.i).Err?)
    ensures st.raised.Some? ==>
      st.raised.value == (if !Drawable(b.slides[st.board.i].image) then AttributeError
                          else DescriptionAsWritten(b.slides, b.dsobjects, st.board.i).error)
  {
    if b.i > 0 then
      var s := ShowSlide(b.(i := b.i - 1), -1);
      Step(b.(i := s.i), if s.screen.Err? then Some(s.screen.error) else None)
    else Step(b, None)
  }

  /** The intended `_show_slide`: the same index and buttons, with the
      slide's own description. The description can no longer raise; only
      an image that cannot be drawn still does. */
  function ShowSlideIntended(b: Board, direction: int): (s: Shown)
    ensures s.i == ShowSlide(b, direction).i
    ensures |b.slides| == 0 ==> s.screen == Ok(Help)
    ensures |b.slides| > 0 ==> 0 <= s.i < |b.slides|
    ensures |b.slides| > 0 ==> (s.screen.Err? <==> !Drawable(b.slides[s.i].image))
    ensures s.screen.Err? ==> s.screen.error == AttributeError
    ensures |b.slides| > 0 && s.screen.Ok? ==>
      s.screen.value == SlideView(s.i != 0, s.i != |b.slides| - 1, Description(b.slides[s.i]))
  {
    if |b.slides| == 0 then Shown(b.i, Ok(Help))
    else
      var j := ShowIndex(|b.slides|, b.i, direction);
      if !Drawable(b.slides[j].image) then Shown(j, Err(AttributeError))
      else Shown(j, Ok(SlideView(j != 0, j != |b.slides| - 1, Description(b.slides[j]))))
  }

  /** The intended "next" and "prev" buttons: move once and show the slide
      in place, which raises only for an image that cannot be drawn. */
  function NextCbIntended(b: Board): (st: Step)
    ensures st.board == b.(i := NextIndex(|b.slides|, b.i))
    ensures st.raised.Some? <==> |b.slides| > 0 && b.i < |b.slides| - 1 && !Drawable(b.slides[st.board.i].image)
    ensures st.raised.Some? ==> st.raised.value == AttributeError
  {
    if b.i < |b.slides| - 1 then
      var s := ShowSlideIntended(b.(i := b.i + 1), 0);
      Step(b.(i := s.i), if s.screen.Err? then Some(s.screen.error) else None)
    else Step(b, None)
  }

  function PrevCbIntended(b: Board): (st: Step)
    ensures st.board == b.(i := PrevIndex(|b.slides|, b.i))
    ensures st.raised.Some? <==> b.i > 0 && |b.slides| > 0 && !Drawable(b.slides[st.board.i].image)
    ensures st.raised.Some? ==> st.raised.value == AttributeError
  {
    if b.i > 0 then
      var s := ShowSlideIntended(b.(i := b.i - 1), 0);
      Step(b.(i := s.i), if s.screen.Err? then Some(s.screen.error) else None)
    else Step(b, None)
  }

  /** Wherever the show as written does not raise on a deck built from the
      starred entries, it shows what the intended one shows. */
  lemma ShowSlideAgreesOnLocalDeck(b: Board, direction: int, colors: Value, images: seq<Value>)
    requires |b.slides| == |b.dsobjects| == |images|
    requires forall k :: 0 <= k < |b.slides| ==> b.slides[k] == SlideFromEntry(b.dsobjects[k], colors, images[k])
    requires forall k :: 0 <= k < |b.dsobjects| && "description" in b.dsobjects[k].metadata ==>
      b.dsobjects[k].metadata["description"].Str?
    ensures ShowSlide(b, direction) == ShowSlideIntended(b, direction)
  {
    if |b.slides| > 0 {
      var j := ShowIndex(|b.slides|, b.i, direction);
      DescriptionAgreesOnLocalDeck(b.slides, b.dsobjects, colors, images, j);
    }
  }

  // ---------------------------------------------------------------------
  // The thumbnail grid of `_thumbs_cb`

  /** `int(ceil(sqrt(k)))`: the least `n` with `n * n >= k`. */
  function CeilSqrt(k: nat): (n: nat)
    ensures n * n >= k && (n == 0 || (n - 1) * (n - 1) < k)
  {
    CeilSqrtFrom(k, 0)
  }

  function CeilSqrtFrom(k: nat, n: nat): (r: nat)
    requires n == 0 || (n - 1) * (n - 1) < k
    ensures r * r >= k && (r == 0 || (r - 1) * (r - 1) < k)
    decreases k - n
  {
    if n * n >= k then n
    else
      assert n <= n * n;
      CeilSqrtFrom(k, n + 1)
  }

  /** The grid's shape: `n` columns planned, cell width `w`, cell height
      `h` (three quarters of `w`, rounded down) and the left margin `xOff`
      that centres `n` cells. */
  datatype Grid = Grid(n: nat, w: int, h: int, xOff: int)

  function GridOf(width: nat, count: nat): Grid
  {
    var n := CeilSqrt(count);
    var w := if n > 0 then width / n else width;
    Grid(n, w, (3 * w) / 4, (width - n * w) / 2)
  }

  /** How many cells fit in a row from `xOff` onwards. */
  function Columns(g: Grid, width: nat): int
    requires g.w > 0
  {
    (width - g.xOff) / g.w
  }

  /** Where the loop puts a cell. */
  datatype Cell = Cell(x: int, y: int)

  /** The reference layout: cells fill rows left to right from the margin,
      a row holding as many cells as fit, rows stacked `h` apart. */
  function CellAt(g: Grid, width: nat, k: nat): Cell
  {
    if g.w > 0 && Columns(g, width) > 0 then
      var c := Columns(g, width);
      Cell(g.xOff + (k % c) * g.w, (k / c) * g.h)
    else Cell(g.xOff, 0)
  }

  lemma MulMono(a: int, b: int, w: int)
    requires a <= b && w >= 0
    ensures a * w <= b * w
  {
    assert b * w - a * w == (b - a) * w;
  }

  lemma DivBelow(a: nat, n: nat)
    requires n > 0
    ensures 0 <= a / n && n * (a / n) <= a
  {
    assert a == n * (a / n) + a % n;
  }

  /** The grid's geometry: cells are non-negative, and with at least one
      slide the margin plus one cell fits on screen. */
  lemma GridFits(width: nat, count: nat)
    requires count > 0
    ensures var g := GridOf(width, count);
      g.n >= 1 && g.w >= 0 && g.h >= 0 && g.xOff >= 0 && g.xOff + g.w <= width
  {
    var n := CeilSqrt(count);
    assert n != 0;
    var w := width / n;
    DivBelow(width, n);
    MulMono(1, n, w);
    var d := width - n * w;
    assert 0 <= d / 2 <= d;
  }

  /** With `c` cells to a row, `m` cells from the margin fit exactly when
      `m <= c`. */
  lemma FitsIff(g: Grid, width: nat, m: int)
    requires g.w > 0 && 0 <= g.xOff <= width && m >= 0
    ensures g.xOff + m * g.w <= width <==> m <= Columns(g, width)
  {
    var c := Columns(g, width);
    var room := width - g.xOff;
    assert room == c * g.w + room % g.w;
    if m <= c {
      MulMono(m, c, g.w);
    } else {
      MulMono(c + 1, m, g.w);
    }
  }

  lemma DivModOf(k: int, c: int, row: int, col: int)
    requires c > 0 && 0 <= col < c && row >= 0 && k == row * c + col
    ensures k / c == row && k % c == col
  {
    var q, r := k / c, k % c;
    assert k == q * c + r;
    assert (q - row) * c == col - r;
    if q > row {
      MulMono(1, q - row, c);
    } else if q < row {
      MulMono(1, row - q, c);
    }
  }

  /** A grid whose cells have width and at least one column. */
  predicate Wide(g: Grid, width: nat)
  {
    g.w > 0 && 0 <= g.xOff <= width && Columns(g, width) > 0
  }

  /** The cell in column `col` of row `row` is the `row * c + col`-th
      cell of the reference layout, and lies on screen. */
  lemma CellIs(g: Grid, width: nat, k: nat, row: int, col: int)
    requires Wide(g, width)
    requires 0 <= col < Columns(g, width) && row >= 0 && k == row * Columns(g, width) + col
    ensures CellAt(g, width, k) == Cell(g.xOff + col * g.w, row * g.h)
    ensures g.xOff + col * g.w + g.w <= width
  {
    DivModOf(k, Columns(g, width), row, col);
    FitsIff(g, width, col + 1);
    assert (col + 1) * g.w == col * g.w + g.w;
  }

  /** One step of the layout loop: the next cell fits in the row exactly
      when the row has a column left; otherwise the next row begins. */
  lemma Advance(g: Grid, width: nat, k: nat, row: int, col: int)
    requires Wide(g, width)
    requires 0 <= col < Columns(g, width) && row >= 0 && k == row * Columns(g, width) + col
    ensures (g.xOff + col * g.w + g.w) + g.w > width <==> col + 1 == Columns(g, width)
    ensures g.xOff + col * g.w + g.w == g.xOff + (col + 1) * g.w
    ensures row * g.h + g.h == (row + 1) * g.h
    ensures col + 1 == Columns(g, width) ==> k + 1 == (row + 1) * Columns(g, width) + 0
  {
    var c := Columns(g, width);
    FitsIff(g, width, col + 2);
    assert (col + 2) * g.w == col * g.w + g.w + g.w;
    assert (col + 1) * g.w == col * g.w + g.w;
    assert (row + 1) * g.h == row * g.h + g.h;
    assert (row + 1) * c == row * c + c;
  }

  /** The layout loop of `_thumbs_cb`: one cell per slide, in the order
      of the slides. Every cell is where the reference layout puts it and
      lies horizontally on screen. */
  method ThumbnailGrid(width: nat, count: nat) returns (cells: seq<Cell>)
    ensures |cells| == count
    ensures forall k :: 0 <= k < count ==> cells[k] == CellAt(GridOf(width, count), width, k)
    ensures forall k :: 0 <= k < count ==>
      GridOf(width, count).xOff <= cells[k].x && cells[k].x + GridOf(width, count).w <= width
  {
    var g := GridOf(width, count);
    cells := [];
    if count == 0 {
      return;
    }
    GridFits(width, count);
    var wide := g.w > 0;
    if wide {
      FitsIff(g, width, 1);
    }
    var x, y := g.xOff, 0;
    ghost var row, col := 0, 0;
    var k := 0;
    while k < count
      invariant 0 <= k <= count && |cells| == k
      invariant forall m :: 0 <= m < k ==> cells[m] == CellAt(g, width, m)
      invariant forall m :: 0 <= m < k ==> g.xOff <= cells[m].x && cells[m].x + g.w <= width
      invariant wide ==> Wide(g, width) && 0 <= col < Columns(g, width) && row >= 0
      invariant wide ==> k == row * Columns(g, width) + col
      invariant wide ==> x == g.xOff + col * g.w && y == row * g.h
      invariant !wide ==> g.w == 0 && x == g.xOff && y == 0
    {
      if wide {
        CellIs(g, width, k, row, col);
        Advance(g, width, k, row, col);
      }
      cells := cells + [Cell(x, y)];
      x := x + g.w;
      if x + g.w > width {
        x := g.xOff;
        y := y + g.h;
        row, col := row + 1, 0;
      } else {
        col := col + 1;
      }
      k := k + 1;
    }
  }

  /** `_thumbs_cb`: entering thumbnail mode remembers the current slide,
      lays the thumbnails out and resets the index to 0; in thumbnail mode
      it does nothing. `_show_thumb` creates a thumbnail only for a slide
      that has none yet, at its grid cell; existing thumbnails stay where
      they are. New sprites are numbered from `firstSprite` on. Creating a
      thumbnail for an image that cannot be drawn raises `AttributeError`;
      the loop stops there, with the index left at that slide and the
      thumbnails before it already made. */
  method ThumbsCb(b: Board, width: nat, firstSprite: nat) returns (after: Board, cells: seq<Cell>, raised: Option<PyError>)
    ensures b.thumbnailMode ==> after == b && cells == [] && raised.None?
    ensures !b.thumbnailMode ==>
      after.(thumbs := b.thumbs, i := 0) == b.(thumbnailMode := true, currentSlide := b.i, i := 0) &&
      |cells| == |b.slides| &&
      forall k :: 0 <= k < |cells| ==> cells[k] == CellAt(GridOf(width, |b.slides|), width, k)
    ensures !b.thumbnailMode ==>
      (raised.Some? <==> exists k :: |b.thumbs| <= k < |b.slides| && !Drawable(b.slides[k].image))
    ensures raised.Some? ==>
      raised.value == AttributeError &&
      after.i == |after.thumbs| < |b.slides| && !Drawable(b.slides[after.i].image) &&
      forall k :: |b.thumbs| <= k < after.i ==> Drawable(b.slides[k].image)
    ensures !b.thumbnailMode && raised.None? ==>
      after.i == 0 && |after.thumbs| == (if |b.thumbs| < |b.slides| then |b.slides| else |b.thumbs|)
    ensures !b.thumbnailMode ==>
      |b.thumbs| <= |after.thumbs| && after.thumbs[..|b.thumbs|] == b.thumbs &&
      forall k :: |b.thumbs| <= k < |after.thumbs| ==>
        after.thumbs[k] == Thumb(firstSprite + k, cells[k].x, cells[k].y, k)
    ensures DistinctSprites(b.thumbs) && (forall k :: 0 <= k < |b.thumbs| ==> b.thumbs[k].sprite < firstSprite) ==>
      DistinctSprites(after.thumbs)
  {
    if b.thumbnailMode {
      return b, [], None;
    }
    cells := ThumbnailGrid(width, |b.slides|);
    var thumbs := b.thumbs;
    var k := |b.thumbs|;
    while k < |b.slides| && Drawable(b.slides[k].image)
      invariant |b.thumbs| <= k && |thumbs| == k
      invariant k <= |b.slides| || k == |b.thumbs|
      invariant thumbs[..|b.thumbs|] == b.thumbs
      invariant forall m :: |b.thumbs| <= m < k ==> thumbs[m] == Thumb(firstSprite + m, cells[m].x, cells[m].y, m)
      invariant forall m :: |b.thumbs| <= m < k ==> Drawable(b.slides[m].image)
    {
      thumbs := thumbs + [Thumb(firstSprite + k, cells[k].x, cells[k].y, k)];
      k := k + 1;
    }
    if k < |b.slides| {
      raised := Some(AttributeError);
      after := b.(thumbs := thumbs, thumbnailMode := true, currentSlide := b.i, i := k);
    } else {
      raised := None;
      after := b.(thumbs := thumbs, thumbnailMode := true, currentSlide := b.i, i := 0);
    }
    if DistinctSprites(b.thumbs) && (forall m :: 0 <= m < |b.thumbs| ==> b.thumbs[m].sprite < firstSprite) {
      forall x, y | 0 <= x < y < |thumbs| ensures thumbs[x].sprite != thumbs[y].sprite {
        if y < |b.thumbs| {
          assert thumbs[x] == b.thumbs[x] && thumbs[y] == b.thumbs[y];
        } else if x < |b.thumbs| {
          assert thumbs[x] == b.thumbs[x];
        }
      }
    }
  }

  /** `_slides_cb`: leaving thumbnail mode restores the remembered index
      and shows the slide, which, like "next", steps once more. */
  function SlidesCb(b: Board): (st: Step)
    ensures !b.thumbnailMode ==> st == Step(b, None)
    ensures b.thumbnailMode ==>
      st.board == b.(thumbnailMode := false, i := ShowIndex(|b.slides|, b.currentSlide, 1)) &&
      (st.raised.Some? <==>
         |b.slides| > 0 &&
         (!Drawable(b.slides[st.board.i].image) || DescriptionAsWritten(b.slides, b.dsobjects, st.board.i).Err?))
  {
    if !b.thumbnailMode then Step(b, None)
    else
      var s := ShowSlide(b.(thumbnailMode := false, i := b.currentSlide), 1);
      Step(b.(thumbnailMode := false, i := s.i), if s.screen.Err? then Some(s.screen.error) else None)
  }

  /** So returning from the thumbnails shows the slide after the one that
      was on screen, not that slide itself (the last one wraps to 0). */
  lemma SlidesCbAdvances(b: Board)
    requires b.thumbnailMode && 0 <= b.currentSlide < |b.slides|
    ensures SlidesCb(b).board.i == (b.currentSlide + 1) % |b.slides|
    ensures |b.slides| > 1 ==> SlidesCb(b).board.i != b.currentSlide
  {
  }

  // ---------------------------------------------------------------------
  // Dragging one thumbnail onto another

  /** Every thumbnail has its own sprite. */
  predicate DistinctSprites(thumbs: seq<Thumb>)
  {
    forall a, b :: 0 <= a < b < |thumbs| ==> thumbs[a].sprite != thumbs[b].sprite
  }

  function Sprites(thumbs: seq<Thumb>): (sprites: seq<nat>)
    ensures |sprites| == |thumbs|
    ensures forall k :: 0 <= k < |thumbs| ==> sprites[k] == thumbs[k].sprite
  {
    if |thumbs| == 0 then [] else [thumbs[0].sprite] + Sprites(thumbs[1..])
  }

  /** `s` with the entries at `i` and `j` exchanged. */
  function Swap<T>(s: seq<T>, i: nat, j: nat): (t: seq<T>)
    requires i < |s| && j < |s|
    ensures |t| == |s| && t[i] == s[j] && t[j] == s[i]
    ensures forall k :: 0 <= k < |s| && k != i && k != j ==> t[k] == s[k]
  {
    s[i := s[j]][j := s[i]]
  }

  lemma SwapPermutes<T>(s: seq<T>, i: nat, j: nat)
    requires i < |s| && j < |s|
    ensures multiset(Swap(s, i, j)) == multiset(s)
  {
    var t := s[i := s[j]];
    assert multiset(t) == multiset(s) - multiset{s[i]} + multiset{s[j]};
    assert multiset(t[j := s[i]]) == multiset(t) - multiset{t[j]} + multiset{s[i]};
  }

  /** Releasing the thumbnail pressed at `i` over the thumbnail at `j`
      (`_button_release_cb` in thumbnail mode). Different sprites trade
      places in `_thumbs` and the two `dsobjects` entries are exchanged;
      `slides` is left as it is. The sprites are exchanged before
      `dsobjects` is indexed, so a thumbnail without a datastore entry
      raises `IndexError` with only the sprites swapped. */
  function DropOnThumb(b: Board, i: nat, j: nat): (st: Step)
    requires i < |b.thumbs| && j < |b.thumbs|
    ensures st.board.slides == b.slides && st.board.i == b.i
    ensures |st.board.thumbs| == |b.thumbs| && |st.board.dsobjects| == |b.dsobjects|
    ensures b.thumbs[i].sprite == b.thumbs[j].sprite ==> st == Step(b, None)
    ensures b.thumbs[i].sprite != b.thumbs[j].sprite ==>
      Sprites(st.board.thumbs) == Swap(Sprites(b.thumbs), i, j) &&
      (st.raised.Some? <==> i >= |b.dsobjects| || j >= |b.dsobjects|)
    ensures b.thumbs[i].sprite != b.thumbs[j].sprite && st.raised.None? ==>
      st.board.dsobjects == Swap(b.dsobjects, i, j)
    ensures st.raised.Some? ==> st.raised.value == IndexError && st.board.dsobjects == b.dsobjects
    ensures forall k :: 0 <= k < |b.thumbs| ==>
      st.board.thumbs[k].(sprite := b.thumbs[k].sprite) == b.thumbs[k]
  {
    var press, release := b.thumbs[i].sprite, b.thumbs[j].sprite;
    if press == release then Step(b, None)
    else
      var thumbs := b.thumbs[i := b.thumbs[i].(sprite := release)][j := b.thumbs[j].(sprite := press)];
      assert Sprites(thumbs) == Swap(Sprites(b.thumbs), i, j);
      if i >= |b.dsobjects| || j >= |b.dsobjects| then Step(b.(thumbs := thumbs), Some(IndexError))
      else Step(b.(thumbs := thumbs, dsobjects := Swap(b.dsobjects, i, j)), None)
  }

  /** Exchanging two distinct sprites keeps them distinct. */
  lemma SwapKeepsDistinct(thumbs: seq<Thumb>, sprites: seq<nat>, i: nat, j: nat)
    requires i < |thumbs| && j < |thumbs| && DistinctSprites(thumbs)
    requires |sprites| == |thumbs| && sprites == Swap(Sprites(thumbs), i, j)
    ensures forall a, b :: 0 <= a < b < |sprites| ==> sprites[a] != sprites[b]
  {
    var s := Sprites(thumbs);
    forall a, b | 0 <= a < b < |sprites| ensures sprites[a] != sprites[b] {
      var a' := if a == i then j else if a == j then i else a;
      var b' := if b == i then j else if b == j then i else b;
      assert sprites[a] == s[a'] && sprites[b] == s[b'];
      assert a' != b';
      if a' < b' {
        assert thumbs[a'].sprite != thumbs[b'].sprite;
      } else {
        assert thumbs[b'].sprite != thumbs[a'].sprite;
      }
    }
  }

  /** A drop keeps every sprite and every datastore entry, just reordered,
      and keeps the sprites distinct. */
  lemma DropPermutes(b: Board, i: nat, j: nat)
    requires i < |b.thumbs| && j < |b.thumbs|
    ensures multiset(Sprites(DropOnThumb(b, i, j).board.thumbs)) == multiset(Sprites(b.thumbs))
    ensures multiset(DropOnThumb(b, i, j).board.dsobjects) == multiset(b.dsobjects)
    ensures DistinctSprites(b.thumbs) ==> DistinctSprites(DropOnThumb(b, i, j).board.thumbs)
  {
    var st := DropOnThumb(b, i, j);
    if b.thumbs[i].sprite != b.thumbs[j].sprite {
      SwapPermutes(Sprites(b.thumbs), i, j);
      if st.raised.None? {
        SwapPermutes(b.dsobjects, i, j);
      }
      if DistinctSprites(b.thumbs) {
        var sprites := Sprites(st.board.thumbs);
        SwapKeepsDistinct(b.thumbs, sprites, i, j);
        forall a, c | 0 <= a < c < |st.board.thumbs|
          ensures st.board.thumbs[a].sprite != st.board.thumbs[c].sprite
        {
          assert sprites[a] != sprites[c];
        }
      }
    }
  }

  /** Dropping the same pair twice restores the original order. */
  lemma DropTwiceRestores(b: Board, i: nat, j: nat)
    requires i < |b.thumbs| && j < |b.thumbs|
    requires DropOnThumb(b, i, j).raised.None?
    ensures DropOnThumb(DropOnThumb(b, i, j).board, i, j) == Step(b, None)
  {
    var once := DropOnThumb(b, i, j).board;
    if b.thumbs[i].sprite != b.thumbs[j].sprite {
      var twice := DropOnThumb(once, i, j).board;
      assert twice.thumbs == b.thumbs by {
        forall k | 0 <= k < |b.thumbs| ensures twice.thumbs[k] == b.thumbs[k] {
          assert Sprites(twice.thumbs)[k] == Sprites(b.thumbs)[k];
        }
      }
      assert twice.dsobjects == b.dsobjects;
    }
  }

  /** `_button_release_cb`: in thumbnail mode a press followed by a release
      over a thumbnail swaps the two; a release elsewhere, or without a
      press, changes nothing. Outside thumbnail mode a click is "next". */
  function ButtonRelease(b: Board, press: Option<nat>, target: Option<nat>): (st: Step)
    requires press.Some? ==> press.value < |b.thumbs|
    requires target.Some? ==> target.value < |b.thumbs|
    ensures st.board.slides == b.slides
    ensures !b.thumbnailMode ==> st == NextCb(b)
    ensures b.thumbnailMode && (press.None? || target.None?) ==> st == Step(b, None)
  {
    if !b.thumbnailMode then NextCb(b)
    else if press.None? || target.None? then Step(b, None)
    else DropOnThumb(b, press.value, target.value)
  }

  // ---------------------------------------------------------------------
  // Writing descriptions back

  /** The datastore: object id to metadata. */
  type Store = map<string, map<string, Value>>

  /** Is `id` the uid of some owner slide? */
  predicate OwnedId(slides: seq<Slide>, id: string)
  {
    exists k :: 0 <= k < |slides| && slides[k].owner && slides[k].uid == Str(id)
  }

  /** Is this slide, if owned, found in the datastore? */
  predicate Stored(store: Store, s: Slide)
  {
    s.owner ==> s.uid.Str? && s.uid.s in store
  }

  /** Can every owner slide be found in the datastore? */
  predicate AllOwnedStored(store: Store, slides: seq<Slide>)
  {
    forall k :: 0 <= k < |slides| ==> Stored(store, slides[k])
  }

  lemma OwnedCons(slides: seq<Slide>, id: string)
    requires |slides| > 0
    ensures OwnedId(slides, id) <==>
      (slides[0].owner && slides[0].uid == Str(id)) || OwnedId(slides[1..], id)
  {
    if OwnedId(slides, id) {
      var k :| 0 <= k < |slides| && slides[k].owner && slides[k].uid == Str(id);
      if k > 0 {
        assert slides[1..][k - 1] == slides[k];
      }
    }
    if OwnedId(slides[1..], id) {
      var k :| 0 <= k < |slides[1..]| && slides[1..][k].owner && slides[1..][k].uid == Str(id);
      assert slides[k + 1] == slides[1..][k];
    }
  }

  lemma StoredCons(store: Store, other: Store, slides: seq<Slide>)
    requires |slides| > 0 && store.Keys == other.Keys
    ensures AllOwnedStored(store, slides) <==>
      Stored(store, slides[0]) && AllOwnedStored(other, slides[1..])
  {
    if Stored(store, slides[0]) && AllOwnedStored(other, slides[1..]) {
      forall k | 0 <= k < |slides| ensures Stored(store, slides[k]) {
        if k > 0 {
          assert slides[1..][k - 1] == slides[k];
        }
      }
    }
    if AllOwnedStored(store, slides) {
      forall k | 0 <= k < |slides[1..]| ensures Stored(other, slides[1..][k]) {
        assert slides[1..][k] == slides[k + 1];
      }
    }
  }

  /** The datastore after `_save_descriptions_cb`, and the exception that
      stopped it, if any. */
  datatype Save = Save(store: Store, raised: Option<PyError>)

  /** `_save_descriptions_cb`: for each owner slide, in order, fetch its
      entry and set its "description" to the slide's; remote slides are
      skipped. Fetching an id the datastore does not hold raises (here
      `KeyError`) and stops the loop; the entries written before stay
      written. */
  function SaveDescriptions(store: Store, slides: seq<Slide>): (r: Save)
    ensures r.raised.None? <==> AllOwnedStored(store, slides)
    ensures r.raised.Some? ==> r.raised.value == KeyError
    ensures r.store.Keys == store.Keys
    ensures forall id :: id in store && !OwnedId(slides, id) ==> r.store[id] == store[id]
    ensures forall id :: id in store ==> r.store[id] - {"description"} == store[id] - {"description"}
    ensures r.raised.None? ==> forall id :: id in store && OwnedId(slides, id) ==> "description" in r.store[id]
    decreases |slides|
  {
    if |slides| == 0 then Save(store, None)
    else
      var s := slides[0];
      if !s.owner then
        StoredCons(store, store, slides);
        assert forall id :: OwnedId(slides, id) <==> OwnedId(slides[1..], id) by {
          forall id ensures OwnedId(slides, id) <==> OwnedId(slides[1..], id) {
            OwnedCons(slides, id);
          }
        }
        SaveDescriptions(store, slides[1..])
      else if !(s.uid.Str? && s.uid.s in store) then Save(store, Some(KeyError))
      else
        var id := s.uid.s;
        var updated := store[id := store[id]["description" := s.desc]];
        StoredCons(store, updated, slides);
        assert forall other :: OwnedId(slides, other) <==> other == id || OwnedId(slides[1..], other) by {
          forall other ensures OwnedId(slides, other) <==> other == id || OwnedId(slides[1..], other) {
            OwnedCons(slides, other);
          }
        }
        SaveDescriptions(updated, slides[1..])
  }

  /** With distinct uids, every owner slide up to the first one the
      datastore lacks gets its description written, whether or not a later
      fetch raises; when none is missing, that is every owner slide. */
  lemma {:induction false} SaveStoresDescriptions(store: Store, slides: seq<Slide>, k: nat)
    requires UniqueUids(slides) && k < |slides| && slides[k].owner
    requires AllOwnedStored(store, slides[..k + 1])
    ensures slides[k].uid.Str? && slides[k].uid.s in SaveDescriptions(store, slides).store
    ensures var entry := SaveDescriptions(store, slides).store[slides[k].uid.s];
      "description" in entry && entry["description"] == slides[k].desc
    decreases |slides|
  {
    var s := slides[0];
    var tail := slides[1..];
    assert UniqueUids(tail) by {
      forall a, b | 0 <= a < b < |tail| ensures tail[a].uid != tail[b].uid {
        assert tail[a] == slides[a + 1] && tail[b] == slides[b + 1];
      }
    }
    assert Stored(store, slides[..k + 1][k]);
    assert Stored(store, slides[..k + 1][0]);
    if !s.owner {
      assert AllOwnedStored(store, tail[..k]) by {
        forall m | 0 <= m < k ensures Stored(store, tail[..k][m]) {
          assert tail[..k][m] == slides[..k + 1][m + 1];
        }
      }
      SaveStoresDescriptions(store, tail, k - 1);
      assert tail[k - 1] == slides[k];
    } else {
      var id := s.uid.s;
      var updated := store[id := store[id]["description" := s.desc]];
      assert SaveDescriptions(store, slides) == SaveDescriptions(updated, tail);
      if k == 0 {
        assert !OwnedId(tail, id);
      } else {
        assert AllOwnedStored(updated, tail[..k]) by {
          forall m | 0 <= m < k ensures Stored(updated, tail[..k][m]) {
            assert tail[..k][m] == slides[..k + 1][m + 1];
          }
        }
        SaveStoresDescriptions(updated, tail, k - 1);
        assert tail[k - 1] == slides[k];
      }
    }
  }
}
