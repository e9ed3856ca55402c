/**
 * The placement editor: which certificate fields sit where on the template
 * canvas, in percent of the canvas, and at what visual scale; and the
 * conversion, at save time, of each visual scale into a font size in percent
 * of the canvas width.
 *
 * Scales are integers counting tenths (10 is 1.0x): the editor only ever
 * steps a scale by 0.1 and rounds it to one decimal place.
 */
module Designer {
  import opened Common
  import opened Records

  // ---- field registry ----

  datatype FieldConfig = FieldConfig(caption: string, preview: string, baseFontPx: nat)

  /** The placeable fields and their reference font size at scale 1.0, in pixels. */
  const FIELDS_CONFIG: map<string, FieldConfig> := map[
    "name" := FieldConfig("Attendee Name", "John Doe", 32),
    "prn" := FieldConfig("PRN", "PRN: 12345678", 16),
    "date" := FieldConfig("Event Date", "18 Feb 2026", 16),
    "eventName" := FieldConfig("Event Name", "Science Fair 2026", 18)
  ]

  const SCALE_STEP: int := 1
  const SCALE_MIN: int := 4
  const SCALE_MAX: int := 30
  const DEFAULT_SCALE: int := 10
  const EDGE_MIN: real := 2.0
  const EDGE_MAX: real := 98.0

  /** Position in percent of the canvas; a scale that may be missing (it then reads as 1.0x). */
  datatype Placement = Placement(x: real, y: real, scale: Option<int>)

  /** The canvas's bounding rectangle on screen, in pixels. */
  datatype Rect = Rect(left: real, top: real, width: real, height: real)

  // ---- clamping ----

  /** `Math.max(2, Math.min(98, v))` */
  function ClampPct(v: real): (r: real)
    ensures EDGE_MIN <= r <= EDGE_MAX
    ensures EDGE_MIN <= v <= EDGE_MAX ==> r == v
    ensures v < EDGE_MIN ==> r == EDGE_MIN
    ensures v > EDGE_MAX ==> r == EDGE_MAX
  {
    Max(EDGE_MIN, Min(EDGE_MAX, v))
  }

  /** `Math.max(SCALE_MIN, Math.min(SCALE_MAX, v))`, in tenths. */
  function ClampScale(v: int): (r: int)
    ensures SCALE_MIN <= r <= SCALE_MAX
    ensures SCALE_MIN <= v <= SCALE_MAX ==> r == v
    ensures v < SCALE_MIN ==> r == SCALE_MIN
    ensures v > SCALE_MAX ==> r == SCALE_MAX
  {
    if SCALE_MAX < v then SCALE_MAX else if v < SCALE_MIN then SCALE_MIN else v
  }

  /** `scale || 1.0`: a missing or zero scale reads as 1.0x. */
  function EffectiveScale(s: Option<int>): (r: int)
    ensures r != 0
    ensures s.Some? && s.value != 0 ==> r == s.value
    ensures s.None? ==> r == DEFAULT_SCALE
  {
    if s.Some? && s.value != 0 then s.value else DEFAULT_SCALE
  }

  predicate InBounds(p: Placement) {
    && EDGE_MIN <= p.x <= EDGE_MAX && EDGE_MIN <= p.y <= EDGE_MAX
    && SCALE_MIN <= EffectiveScale(p.scale) <= SCALE_MAX
    && (p.scale.Some? ==> SCALE_MIN <= p.scale.value <= SCALE_MAX)
  }

  predicate AllInBounds(m: map<string, Placement>) {
    forall k :: k in m ==> InBounds(m[k])
  }

  // ---- mouse geometry ----

  /** A mouse coordinate in percent of the canvas extent along that axis. */
  function PointerPct(client: real, origin: real, extent: real): (r: real)
    requires extent > 0.0
    ensures r * extent == (client - origin) * 100.0
    ensures origin <= client <= origin + extent ==> 0.0 <= r <= 100.0
  {
    ((client - origin) / extent) * 100.0
  }

  /**
   * A drag along one axis: the field's start position converted to pixels,
   * moved by the mouse's displacement, converted back to percent.
   */
  function DragPct(startPct: real, extent: real, delta: real): (r: real)
    requires extent > 0.0
    ensures (r - startPct) * extent == delta * 100.0
  {
    (((startPct / 100.0) * extent + delta) / extent) * 100.0
  }

  /** Where a field at `pos` is asked to move while the mouse goes from `start` to `now`. */
  function DragTarget(pos: Placement, rect: Rect, startX: real, startY: real, nowX: real, nowY: real): (real, real)
    requires rect.width > 0.0 && rect.height > 0.0
  {
    (DragPct(pos.x, rect.width, nowX - startX), DragPct(pos.y, rect.height, nowY - startY))
  }

  /** A drag without mouse movement yields the field's own position. */
  lemma ZeroDragKeepsPosition(pos: Placement, rect: Rect, startX: real, startY: real)
    requires rect.width > 0.0 && rect.height > 0.0
    ensures DragTarget(pos, rect, startX, startY, startX, startY) == (pos.x, pos.y)
  {
    var (x, y) := DragTarget(pos, rect, startX, startY, startX, startY);
    assert (x - pos.x) * rect.width == 0.0;
    assert (y - pos.y) * rect.height == 0.0;
  }

  // ---- the editing operations, on values ----

  /** A drop of `field` at (x, y) percent: ignored for an empty id or a field already placed. */
  function Dropped(m: map<string, Placement>, field: string, x: real, y: real): (r: map<string, Placement>)
    ensures field == "" || field in m ==> r == m
    ensures field != "" && field !in m ==>
      && r.Keys == m.Keys + {field}
      && r[field] == Placement(ClampPct(x), ClampPct(y), Some(DEFAULT_SCALE))
      && forall k :: k in m ==> r[k] == m[k]
  {
    if field == "" || field in m then m
    else m[field := Placement(ClampPct(x), ClampPct(y), Some(DEFAULT_SCALE))]
  }

  /** `updatePosition`: the entry for `field` gets clamped coordinates and keeps its scale. */
  function Moved(m: map<string, Placement>, field: string, x: real, y: real): (r: map<string, Placement>)
    ensures r.Keys == m.Keys + {field}
    ensures r[field].x == ClampPct(x) && r[field].y == ClampPct(y)
    ensures r[field].scale == if field in m then m[field].scale else None
    ensures forall k :: k in m && k != field ==> r[k] == m[k]
  {
    var scale := if field in m then m[field].scale else None;
    m[field := Placement(ClampPct(x), ClampPct(y), scale)]
  }

  /** `updateScale`: None when `field` is not placed (the update throws and nothing changes). */
  function Rescaled(m: map<string, Placement>, field: string, delta: int): (r: Option<map<string, Placement>>)
    ensures r.None? <==> field !in m
    ensures r.Some? ==>
      && r.value.Keys == m.Keys
      && r.value[field] == m[field].(scale := Some(ClampScale(EffectiveScale(m[field].scale) + delta)))
      && forall k :: k in m && k != field ==> r.value[k] == m[k]
  {
    if field !in m then None
    else
      var next := ClampScale(EffectiveScale(m[field].scale) + delta);
      Some(m[field := m[field].(scale := Some(next))])
  }

  /** `removeField`: exactly the entry for `field` goes. */
  function Removed(m: map<string, Placement>, field: string): (r: map<string, Placement>)
    ensures r.Keys == m.Keys - {field}
    ensures forall k :: k in r ==> r[k] == m[k]
  {
    m - {field}
  }

  /** Dragging a field to where it already is leaves the map as it was. */
  lemma DragToCurrentPosition(m: map<string, Placement>, field: string)
    requires field in m && InBounds(m[field])
    ensures Moved(m, field, m[field].x, m[field].y) == m
  {
    var r := Moved(m, field, m[field].x, m[field].y);
    assert r[field] == m[field];
    assert r.Keys == m.Keys;
  }

  /** A drag immediately after a drop, to the same point, changes nothing. */
  lemma DropThenDragSamePoint(m: map<string, Placement>, field: string, x: real, y: real)
    requires field != "" && field !in m
    ensures Moved(Dropped(m, field, x, y), field, x, y) == Dropped(m, field, x, y)
  {
    var d := Dropped(m, field, x, y);
    assert Moved(d, field, x, y).Keys == d.Keys;
  }

  // ---- any sequence of edits keeps positions and scales in range ----

  datatype Edit =
    | Drop(field: string, x: real, y: real)
    | Drag(field: string, x: real, y: real)
    | Resize(field: string, delta: int)
    | Remove(field: string)

  function ApplyEdit(m: map<string, Placement>, e: Edit): Option<map<string, Placement>> {
    match e
    case Drop(f, x, y) => Some(Dropped(m, f, x, y))
    case Drag(f, x, y) => Some(Moved(m, f, x, y))
    case Resize(f, d) => Rescaled(m, f, d)
    case Remove(f) => Some(Removed(m, f))
  }

  /** The map after the edits, or None once one of them throws. */
  function ApplyEdits(m: map<string, Placement>, es: seq<Edit>): Option<map<string, Placement>>
    decreases |es|
  {
    if es == [] then Some(m)
    else match ApplyEdit(m, es[0])
      case None => None
      case Some(m') => ApplyEdits(m', es[1..])
  }

  lemma EditStaysInBounds(m: map<string, Placement>, e: Edit)
    requires AllInBounds(m)
    ensures ApplyEdit(m, e).Some? ==> AllInBounds(ApplyEdit(m, e).value)
  {
    match e
    case Drop(f, x, y) =>
    case Drag(f, x, y) =>
      var r := Moved(m, f, x, y);
      assert InBounds(r[f]);
    case Resize(f, d) =>
    case Remove(f) =>
  }

  /** From an in-range start, every edit sequence ends with positions in [2, 98] and scales in [0.4, 3.0]. */
  lemma {:induction false} EditsStayInBounds(m: map<string, Placement>, es: seq<Edit>)
    requires AllInBounds(m)
    ensures ApplyEdits(m, es).Some? ==> AllInBounds(ApplyEdits(m, es).value)
    decreases |es|
  {
    if es != [] {
      EditStaysInBounds(m, es[0]);
      if ApplyEdit(m, es[0]).Some? {
        EditsStayInBounds(ApplyEdit(m, es[0]).value, es[1..]);
      }
    }
  }

  // ---- save ----

  /** The font size in percent of the canvas width that shows `baseFontPx` at `scale` on a canvas `canvasW` pixels wide. */
  function ExactFontPct(baseFontPx: nat, scale: int, canvasW: real): (r: real)
    requires canvasW > 0.0
    ensures r * canvasW == baseFontPx as real * (scale as real / 10.0) * 100.0
  {
    ((baseFontPx as real * (scale as real / 10.0)) / canvasW) * 100.0
  }

  /** `parseFloat(v.toFixed(2))`: the hundredth nearest to `v`, a tie going away from zero. */
  function Round2(v: real): (r: real)
    ensures (r * 100.0).Floor as real == r * 100.0
    ensures v - 0.005 <= r <= v + 0.005
    ensures v >= 0.0 ==> v - 0.005 < r
    ensures v < 0.0 ==> r < v + 0.005
  {
    var n := RoundHalfAway(v * 100.0);
    ScaledRounding(v, 100.0, n);
    n as real / 100.0
  }

  /** `parseFloat(v.toFixed(3))`: the thousandth nearest to `v`, a tie going away from zero. */
  function Round3(v: real): (r: real)
    ensures (r * 1000.0).Floor as real == r * 1000.0
    ensures v - 0.0005 <= r <= v + 0.0005
    ensures v >= 0.0 ==> v - 0.0005 < r
    ensures v < 0.0 ==> r < v + 0.0005
  {
    var n := RoundHalfAway(v * 1000.0);
    ScaledRounding(v, 1000.0, n);
    n as real / 1000.0
  }

  /** Dividing the integer rounding of `v * k` back by `k` lands on the `1/k` grid, within half a step, ties away from zero. */
  lemma ScaledRounding(v: real, k: real, n: int)
    requires k > 0.0 && n == RoundHalfAway(v * k)
    ensures (n as real / k * k).Floor as real == n as real / k * k
    ensures v - 0.5 / k <= n as real / k <= v + 0.5 / k
    ensures v >= 0.0 ==> v - 0.5 / k < n as real / k
    ensures v < 0.0 ==> n as real / k < v + 0.5 / k
  {
    var x := v * k;
    assert n as real / k * k == n as real;
    assert (v >= 0.0) == (x >= 0.0);
    assert x - 0.5 <= n as real <= x + 0.5;
    assert (x - 0.5) / k == v - 0.5 / k;
    assert (x + 0.5) / k == v + 0.5 / k;
    DivMonotone(x - 0.5, n as real, k);
    DivMonotone(n as real, x + 0.5, k);
    if v >= 0.0 {
      DivStrict(x - 0.5, n as real, k);
    } else {
      DivStrict(n as real, x + 0.5, k);
    }
  }

  lemma DivMonotone(a: real, b: real, k: real)
    requires k > 0.0 && a <= b
    ensures a / k <= b / k
  {
  }

  lemma DivStrict(a: real, b: real, k: real)
    requires k > 0.0 && a < b
    ensures a / k < b / k
  {
  }

  /** The persisted form of one placed field. */
  function SavedEntry(field: string, p: Placement, canvasW: real): (s: SavedPlacement)
    requires field in FIELDS_CONFIG && canvasW > 0.0
    ensures s.scale == EffectiveScale(p.scale)
    ensures s.x == Round2(p.x) && s.y == Round2(p.y)
    ensures s.fontPct == Round3(ExactFontPct(FIELDS_CONFIG[field].baseFontPx, s.scale, canvasW))
    ensures p.x - 0.005 <= s.x <= p.x + 0.005 && p.y - 0.005 <= s.y <= p.y + 0.005
    ensures var exact := ExactFontPct(FIELDS_CONFIG[field].baseFontPx, s.scale, canvasW);
      exact - 0.0005 <= s.fontPct <= exact + 0.0005
  {
    var scale := EffectiveScale(p.scale);
    var fontPct := ExactFontPct(FIELDS_CONFIG[field].baseFontPx, scale, canvasW);
    SavedPlacement(Round2(p.x), Round2(p.y), scale, Round3(fontPct))
  }

  /** The TypeError message raised when a placed key has no entry in the field registry. */
  const UNKNOWN_FIELD_ERROR := "Cannot read properties of undefined (reading 'baseFontPx')"

  /** What `handleInternalSave` hands to `onSave`, or the error it throws. */
  function SavedPositions(m: map<string, Placement>, canvasW: real): (r: Result<Placements, string>)
    requires canvasW > 0.0
    ensures r.Success? <==> m.Keys <= FIELDS_CONFIG.Keys
    ensures r.Success? ==> r.value.Keys == m.Keys
    ensures r.Success? ==> forall k :: k in m ==> r.value[k] == SavedEntry(k, m[k], canvasW)
  {
    if m.Keys <= FIELDS_CONFIG.Keys then Success(map k | k in m :: SavedEntry(k, m[k], canvasW))
    else Failure(UNKNOWN_FIELD_ERROR)
  }

  /** The saved font size does not depend on the canvas width the editor happened to have: only its product with it does. */
  lemma FontPctStableUnderViewport(baseFontPx: nat, scale: int, w1: real, w2: real)
    requires w1 > 0.0 && w2 > 0.0
    ensures ExactFontPct(baseFontPx, scale, w1) * w1 == ExactFontPct(baseFontPx, scale, w2) * w2
  {
  }

  // ---- the editor's state ----

  class CertificateDesigner {
    var fieldPositions: map<string, Placement>

    constructor (initialPositions: map<string, Placement>)
      ensures fieldPositions == initialPositions
    {
      fieldPositions := initialPositions;
    }

    /** A field chip dropped at a mouse position over the canvas. */
    method HandleDrop(field: string, clientX: real, clientY: real, rect: Rect)
      requires rect.width > 0.0 && rect.height > 0.0
      modifies this
      ensures fieldPositions == Dropped(old(fieldPositions),
        field, PointerPct(clientX, rect.left, rect.width), PointerPct(clientY, rect.top, rect.height))
      ensures old(AllInBounds(fieldPositions)) ==> AllInBounds(fieldPositions)
    {
      if field == "" || field in fieldPositions {
        return;
      }
      var x := ((clientX - rect.left) / rect.width) * 100.0;
      var y := ((clientY - rect.top) / rect.height) * 100.0;
      fieldPositions := fieldPositions[field := Placement(ClampPct(x), ClampPct(y), Some(DEFAULT_SCALE))];
    }

    method UpdatePosition(field: string, x: real, y: real)
      modifies this
      ensures fieldPositions == Moved(old(fieldPositions), field, x, y)
      ensures old(AllInBounds(fieldPositions)) ==> AllInBounds(fieldPositions)
    {
      ghost var before := fieldPositions;
      var scale := if field in fieldPositions then fieldPositions[field].scale else None;
      fieldPositions := fieldPositions[field := Placement(ClampPct(x), ClampPct(y), scale)];
      assert AllInBounds(before) ==> InBounds(fieldPositions[field]);
    }

    /** Returns false, changing nothing, when `field` is not placed (the source's update throws). */
    method UpdateScale(field: string, delta: int) returns (ok: bool)
      modifies this
      ensures ok <==> field in old(fieldPositions)
      ensures fieldPositions == Rescaled(old(fieldPositions), field, delta).GetOr(old(fieldPositions))
      ensures old(AllInBounds(fieldPositions)) ==> AllInBounds(fieldPositions)
    {
      if field !in fieldPositions {
        return false;
      }
      var current := EffectiveScale(fieldPositions[field].scale);
      var next := ClampScale(current + delta);
      fieldPositions := fieldPositions[field := fieldPositions[field].(scale := Some(next))];
      return true;
    }

    method RemoveField(field: string)
      modifies this
      ensures fieldPositions == Removed(old(fieldPositions), field)
      ensures old(AllInBounds(fieldPositions)) ==> AllInBounds(fieldPositions)
    {
      fieldPositions := fieldPositions - {field};
    }

    /** Converts every placed field into its persisted form, one entry at a time. */
    method HandleInternalSave(canvasW: real) returns (r: Result<Placements, string>)
      requires canvasW > 0.0
      ensures r == SavedPositions(fieldPositions, canvasW)
    {
      var processed: Placements := map[];
      var todo := fieldPositions.Keys;
      while todo != {}
        invariant todo <= fieldPositions.Keys
        invariant processed.Keys == fieldPositions.Keys - todo
        invariant processed.Keys <= FIELDS_CONFIG.Keys
        invariant forall k :: k in processed ==> processed[k] == SavedEntry(k, fieldPositions[k], canvasW)
        decreases todo
      {
        var key :| key in todo;
        if key !in FIELDS_CONFIG {
          assert !(fieldPositions.Keys <= FIELDS_CONFIG.Keys);
          return Failure(UNKNOWN_FIELD_ERROR);
        }
        processed := processed[key := SavedEntry(key, fieldPositions[key], canvasW)];
        todo := todo - {key};
      }
      assert processed == map k | k in fieldPositions :: SavedEntry(k, fieldPositions[k], canvasW);
      return Success(processed);
    }
  }
}
