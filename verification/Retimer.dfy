/** The stateful retiming function of PcapEdit.retime, against a closed form over the whole capture. */
module Retimer {
  import opened Bytes

  const MICROS_PER_SECOND: int := 1_000_000

  datatype TimeUnit = Us | Ms | S | Min

  function UnitMicros(u: TimeUnit): int
  {
    match u
    case Us => 1
    case Ms => 1000
    case S => 1_000_000
    case Min => 60_000_000
  }

  datatype Edit =
    | Scale(factor: real)
    | ConstantInterval(interval: real, intervalUnit: TimeUnit)
    | Shift(delta: real, deltaUnit: TimeUnit)
    | SetStart(startMicros: real)

  /** A JavaScript number given as an argument. */
  datatype Number = Finite(value: real) | NotFinite

  /** `Number.isInteger(n)` */
  predicate IsInteger(n: Number) { n.Finite? && n.value == n.value.Floor as real }

  /** The edit as asked for, its unit named by text. */
  datatype Request =
    | ScaleBy(factor: Number)
    | Every(interval: real, unit: Option<string>)
    | ShiftBy(delta: real, unit: Option<string>)
    | StartAt(seconds: real, microseconds: Option<real>)

  datatype Range = Range(from: Number, to: Option<Number>)

  datatype ArgumentError = BadFrom | BadTo | RangeNotSupported | UnknownUnit(name: string) | BadFactor

  /** A missing unit is microseconds. */
  function UnitOf(unit: Option<string>): Option<TimeUnit>
  {
    if unit.None? || unit.value == "us" then Some(Us)
    else if unit.value == "ms" then Some(Ms)
    else if unit.value == "s" then Some(S)
    else if unit.value == "min" then Some(Min)
    else None
  }

  /** `Math.round`: to the nearest integer, halves up. */
  function Round(x: real): int { (x + 0.5).Floor }

  /** A packet's timestamp as the reader reports it. */
  datatype Stamp = Stamp(seconds: nat, microseconds: nat)
  {
    function Micros(): int { seconds * 1_000_000 + microseconds }
  }

  /** The timestamp of `micros`, floored and clamped at the epoch. */
  function Normalised(micros: real): Stamp
  {
    var safe := Max(0, micros.Floor);
    Stamp(safe / 1_000_000, safe % 1_000_000)
  }

  lemma NormalisedMicros(micros: real)
    ensures Normalised(micros).Micros() == Max(0, micros.Floor)
  {
  }

  function CheckRange(request: Request, range: Range): Option<ArgumentError>
  {
    if !IsInteger(range.from) || range.from.value < 1.0 then Some(BadFrom)
    else if range.to.Some? && (!IsInteger(range.to.value) || range.to.value.value < range.from.value) then Some(BadTo)
    else if request.StartAt? then Some(RangeNotSupported)
    else None
  }

  function CheckRequest(request: Request): Option<ArgumentError>
  {
    match request
    case ScaleBy(factor) => if factor.NotFinite? || factor.value < 0.0 then Some(BadFactor) else None
    case Every(_, unit) => if UnitOf(unit).None? then Some(UnknownUnit(unit.value)) else None
    case ShiftBy(_, unit) => if UnitOf(unit).None? then Some(UnknownUnit(unit.value)) else None
    case StartAt(_, _) => None
  }

  function Check(request: Request, range: Option<Range>): Option<ArgumentError>
  {
    if range.Some? && CheckRange(request, range.value).Some? then CheckRange(request, range.value)
    else CheckRequest(request)
  }

  function EditOf(request: Request): Edit
    requires CheckRequest(request) == None
  {
    match request
    case ScaleBy(factor) => Scale(factor.value)
    case Every(interval, unit) => ConstantInterval(interval, UnitOf(unit).value)
    case ShiftBy(delta, unit) => Shift(delta, UnitOf(unit).value)
    case StartAt(seconds, microseconds) =>
      SetStart(seconds * 1000000.0 + if microseconds.Some? then microseconds.value else 0.0)
  }

  /** The frames an edit applies to, by 0-based position: from `first` up to and including `last`, if bounded. */
  datatype Window = Window(first: nat, last: Option<nat>)
  {
    predicate Has(i: nat) { first <= i && (last.None? || i <= last.value) }
  }

  /** The window of a range that was accepted; without one, every frame. */
  function WindowOf(request: Request, range: Option<Range>): (w: Window)
    requires Check(request, range) == None
    ensures w.last.Some? ==> w.first <= w.last.value
  {
    if range.None? then Window(0, None)
    else
      var to := range.value.to;
      Window(range.value.from.value.Floor - 1, if to.None? then None else Some(to.value.value.Floor - 1))
  }

  function IntervalMicros(edit: Edit): int
  {
    if edit.ConstantInterval? then Max(0, (edit.interval * UnitMicros(edit.intervalUnit) as real).Floor) else 0
  }

  function ShiftMicros(edit: Edit): int
  {
    if edit.Shift? then Round(edit.delta * UnitMicros(edit.deltaUnit) as real) else 0
  }

  /** `Math.round(anchor + (t - anchor) * factor)` */
  function Scaled(anchor: int, t: int, factor: real): int
  {
    Round(anchor as real + (t - anchor) as real * factor)
  }

  // ---- the closed form ----

  /** The new time of a frame inside the window, in whole microseconds. */
  function Inside(edit: Edit, w: Window, ts: seq<Stamp>, i: nat): int
    requires (edit.Scale? || edit.ConstantInterval?) && w.Has(i) && i < |ts|
  {
    var anchor := ts[w.first].Micros();
    Max(0, if edit.Scale? then Scaled(anchor, ts[i].Micros(), edit.factor)
           else anchor + (i - w.first) * IntervalMicros(edit))
  }

  /** The timestamp emitted for frame `i` of the capture. */
  function Output(edit: Edit, w: Window, ts: seq<Stamp>, i: nat): Stamp
    requires i < |ts|
    requires w.last.Some? ==> w.first <= w.last.value
  {
    var t := ts[i].Micros();
    match edit
    case SetStart(start) => Normalised(start + (t - ts[0].Micros()) as real)
    case Shift(_, _) => if i >= w.first then Normalised((t + ShiftMicros(edit)) as real) else ts[i]
    case _ =>
      if i < w.first then ts[i]
      else if w.Has(i) then Normalised(Inside(edit, w, ts, i) as real)
      else
        var l := w.last.value;
        Normalised((t + (Inside(edit, w, ts, l) - ts[l].Micros())) as real)
  }

  /** A later frame does not change what an earlier one was given. */
  lemma InsideStays(edit: Edit, w: Window, ts: seq<Stamp>, more: seq<Stamp>, i: nat)
    requires (edit.Scale? || edit.ConstantInterval?) && w.Has(i) && i < |ts| && ts <= more
    ensures Inside(edit, w, ts, i) == Inside(edit, w, more, i)
  {
    hide Scaled, IntervalMicros;
    assert more[w.first] == ts[w.first] && more[i] == ts[i];
  }

  // ---- the stateful function ----

  class Retimer {
    const edit: Edit
    const window: Window
    var anchor: Option<int>
    var inRangeIndex: nat
    var shift: int
    var base: Option<int>
    ghost var seen: seq<Stamp>

    ghost predicate Valid()
      reads this
    {
      && (window.last.Some? ==> window.first <= window.last.value)
      && (edit.Scale? || edit.ConstantInterval? ==> Windowed())
      && (edit.SetStart? ==> base == if seen == [] then None else Some(seen[0].Micros()))
    }

    ghost predicate Windowed()
      reads this
      requires edit.Scale? || edit.ConstantInterval?
      requires window.last.Some? ==> window.first <= window.last.value
    {
      if |seen| <= window.first then anchor == None
      else
        && anchor == Some(seen[window.first].Micros())
        && var l := if window.last.Some? && window.last.value < |seen| then window.last.value else |seen| - 1;
        && inRangeIndex == l + 1 - window.first
        && shift == Inside(edit, window, seen, l) - seen[l].Micros()
    }

    constructor (edit: Edit, window: Window)
      requires window.last.Some? ==> window.first <= window.last.value
      ensures Valid() && seen == [] && this.edit == edit && this.window == window
    {
      this.edit, this.window := edit, window;
      anchor, inRangeIndex, shift, base, seen := None, 0, 0, None, [];
    }

    /** Called once per packet, in reading order: packet `index` is the index-th. */
    method Apply(info: Stamp, index: nat) returns (out: Stamp)
      requires Valid() && index == |seen| + 1
      modifies this
      ensures Valid() && seen == old(seen) + [info]
      ensures out == Output(edit, window, seen, index - 1)
    {
      hide Scaled, IntervalMicros, ShiftMicros, Normalised, Inside;
      var t := info.Micros();
      ghost var before := seen;
      seen := seen + [info];
      if edit.SetStart? {
        if base.None? { base := Some(t); }
        return Normalised(edit.startMicros + (t - base.value) as real);
      }
      if edit.Shift? {
        if index >= window.first + 1 { return Normalised((t + ShiftMicros(edit)) as real); }
        return info;
      }
      if index < window.first + 1 { return info; }
      if window.last.None? || index <= window.last.value + 1 {
        if anchor.None? {
          anchor := Some(t);
          inRangeIndex := 0;
        }
        out := Place(t);
        return;
      }
      InsideStays(edit, window, before, seen, window.last.value);
      return Normalised((t + shift) as real);
    }

    /** An in-range frame: scale its distance from the anchor, or space it evenly. */
    method Place(t: int) returns (out: Stamp)
      requires edit.Scale? || edit.ConstantInterval?
      requires |seen| > 0 && t == seen[|seen| - 1].Micros() && window.Has(|seen| - 1)
      requires anchor == Some(seen[window.first].Micros()) && inRangeIndex == |seen| - 1 - window.first
      modifies `shift, `inRangeIndex
      ensures out == Normalised(Inside(edit, window, seen, |seen| - 1) as real)
      ensures shift == Inside(edit, window, seen, |seen| - 1) - t && inRangeIndex == |seen| - window.first
    {
      hide Round;
      var target := if edit.Scale? then Scaled(anchor.value, t, edit.factor)
                    else anchor.value + inRangeIndex * IntervalMicros(edit);
      var emitted := Max(0, target);
      out := Stamp(emitted / MICROS_PER_SECOND, emitted % MICROS_PER_SECOND);
      shift := emitted - t;
      inRangeIndex := inRangeIndex + 1;
      assert (emitted as real).Floor == emitted;
    }
  }

  /** Rejects bad arguments before any packet is seen. */
  method MakeRetimer(request: Request, range: Option<Range>) returns (retimer: Retimer?, error: Option<ArgumentError>)
    ensures error == Check(request, range) && (error.None? <==> retimer != null)
    ensures retimer != null ==>
      && fresh(retimer) && retimer.Valid() && retimer.seen == []
      && retimer.edit == EditOf(request) && retimer.window == WindowOf(request, range)
  {
    retimer, error := null, None;
    if range.Some? {
      var r := range.value;
      if !IsInteger(r.from) || r.from.value < 1.0 { return null, Some(BadFrom); }
      if r.to.Some? && (!IsInteger(r.to.value) || r.to.value.value < r.from.value) { return null, Some(BadTo); }
      if request.StartAt? { return null, Some(RangeNotSupported); }
    }
    if request.Every? || request.ShiftBy? {
      if UnitOf(request.unit).None? { return null, Some(UnknownUnit(request.unit.value)); }
    }
    if request.ScaleBy? && (request.factor.NotFinite? || request.factor.value < 0.0) { return null, Some(BadFactor); }
    retimer := new Retimer(EditOf(request), WindowOf(request, range));
  }

  // ---- what retiming promises ----

  predicate NonDecreasing(ts: seq<Stamp>)
  {
    forall i, j :: 0 <= i < j < |ts| ==> ts[i].Micros() <= ts[j].Micros()
  }

  function Retimed(edit: Edit, w: Window, ts: seq<Stamp>): (out: seq<Stamp>)
    requires w.last.Some? ==> w.first <= w.last.value
    ensures |out| == |ts| && forall i :: 0 <= i < |ts| ==> out[i] == Output(edit, w, ts, i)
  {
    seq(|ts|, i requires 0 <= i < |ts| => Output(edit, w, ts, i))
  }

  lemma RoundMonotone(x: real, y: real)
    requires x <= y
    ensures Round(x) <= Round(y)
  {
  }

  lemma ProductMonotone(x: real, y: real, factor: real)
    requires x <= y && factor >= 0.0
    ensures x * factor <= y * factor
  {
  }

  lemma ScaledMonotone(anchor: int, t: int, u: int, factor: real)
    requires t <= u && factor >= 0.0
    ensures Scaled(anchor, t, factor) <= Scaled(anchor, u, factor)
  {
    var x, y := anchor as real + (t - anchor) as real * factor, anchor as real + (u - anchor) as real * factor;
    assert Scaled(anchor, t, factor) == Round(x) && Scaled(anchor, u, factor) == Round(y);
    hide Round, Scaled;
    ProductMonotone((t - anchor) as real, (u - anchor) as real, factor);
    RoundMonotone(x, y);
  }

  lemma ScaledAnchor(anchor: int, factor: real)
    ensures Scaled(anchor, anchor, factor) == anchor
  {
    assert (anchor - anchor) as real == 0.0;
    ZeroProduct(factor);
    assert (anchor as real + 0.5).Floor == anchor;
  }

  lemma ZeroProduct(x: real)
    ensures 0.0 * x == 0.0
  {
  }

  lemma InsideMonotone(edit: Edit, w: Window, ts: seq<Stamp>, i: nat, j: nat)
    requires edit.ConstantInterval? || (edit.Scale? && edit.factor >= 0.0)
    requires NonDecreasing(ts) && i <= j < |ts| && w.Has(i) && w.Has(j)
    ensures Inside(edit, w, ts, i) <= Inside(edit, w, ts, j)
  {
    if edit.Scale? {
      assert ts[i].Micros() <= ts[j].Micros();
      hide Scaled, Stamp.Micros;
      ScaledMonotone(ts[w.first].Micros(), ts[i].Micros(), ts[j].Micros(), edit.factor);
    } else {
      hide Scaled, IntervalMicros, Stamp.Micros;
      IntervalMonotone(i - w.first, j - w.first, IntervalMicros(edit));
    }
  }

  lemma IntervalMonotone(i: nat, j: nat, interval: int)
    requires i <= j && interval >= 0
    ensures 0 <= i * interval <= j * interval
  {
  }

  /** The first frame of the window keeps its time. */
  lemma AnchorFixed(edit: Edit, w: Window, ts: seq<Stamp>)
    requires (edit.Scale? || edit.ConstantInterval?) && w.first < |ts| && w.Has(w.first)
    ensures Inside(edit, w, ts, w.first) == ts[w.first].Micros()
  {
    hide Scaled, IntervalMicros;
    if edit.Scale? { ScaledAnchor(ts[w.first].Micros(), edit.factor); }
  }

  /** The emitted microseconds in the three regions. */
  lemma OutputMicros(edit: Edit, w: Window, ts: seq<Stamp>, i: nat)
    requires edit.ConstantInterval? || (edit.Scale? && edit.factor >= 0.0)
    requires NonDecreasing(ts) && i < |ts| && (w.last.Some? ==> w.first <= w.last.value)
    ensures i < w.first ==> Output(edit, w, ts, i) == ts[i]
    ensures w.Has(i) ==> Output(edit, w, ts, i).Micros() == Inside(edit, w, ts, i)
    ensures w.last.Some? && i > w.last.value ==>
      Output(edit, w, ts, i).Micros()
        == Inside(edit, w, ts, w.last.value) + (ts[i].Micros() - ts[w.last.value].Micros())
  {
    if w.Has(i) {
      NormalisedMicros(Inside(edit, w, ts, i) as real);
    } else if i >= w.first {
      var l := w.last.value;
      var shifted := ts[i].Micros() + (Inside(edit, w, ts, l) - ts[l].Micros());
      NormalisedMicros(shifted as real);
      assert (shifted as real).Floor == shifted;
    }
  }

  lemma PairInOrder(edit: Edit, w: Window, ts: seq<Stamp>, i: nat, j: nat)
    requires edit.ConstantInterval? || (edit.Scale? && edit.factor >= 0.0)
    requires NonDecreasing(ts) && i < j < |ts| && (w.last.Some? ==> w.first <= w.last.value)
    ensures Output(edit, w, ts, i).Micros() <= Output(edit, w, ts, j).Micros()
  {
    OutputMicros(edit, w, ts, i);
    OutputMicros(edit, w, ts, j);
    hide Output, Inside;
    if j >= w.first {
      AnchorFixed(edit, w, ts);
      var jj := if w.Has(j) then j else w.last.value;
      InsideMonotone(edit, w, ts, w.first, jj);
      if i >= w.first && w.Has(i) { InsideMonotone(edit, w, ts, i, jj); }
    }
  }

  /**
   * A windowed scale (factor >= 0) or constant interval leaves an ordered capture ordered; frames before the
   * window are untouched, the window's first frame keeps its time, and every gap from the window's last
   * frame on is exactly the original one.
   */
  lemma RetimingKeepsOrder(edit: Edit, w: Window, ts: seq<Stamp>)
    requires edit.ConstantInterval? || (edit.Scale? && edit.factor >= 0.0)
    requires NonDecreasing(ts) && (w.last.Some? ==> w.first <= w.last.value)
    ensures var out := Retimed(edit, w, ts);
            && NonDecreasing(out)
            && (forall i :: 0 <= i < |ts| && i < w.first ==> out[i] == ts[i])
            && (w.first < |ts| ==> out[w.first].Micros() == ts[w.first].Micros())
            && (w.last.Some? ==> forall i, j :: w.last.value <= i < j < |ts| ==>
                  out[j].Micros() - out[i].Micros() == ts[j].Micros() - ts[i].Micros())
  {
    var out := Retimed(edit, w, ts);
    forall i, j | 0 <= i < j < |out| ensures out[i].Micros() <= out[j].Micros() { PairInOrder(edit, w, ts, i, j); }
    forall i | 0 <= i < |ts| && i < w.first ensures out[i] == ts[i] { OutputMicros(edit, w, ts, i); }
    if w.first < |ts| {
      AnchorFixed(edit, w, ts);
      OutputMicros(edit, w, ts, w.first);
    }
    if w.last.Some? {
      forall i, j | w.last.value <= i < j < |ts|
        ensures out[j].Micros() - out[i].Micros() == ts[j].Micros() - ts[i].Micros()
      {
        OutputMicros(edit, w, ts, i);
        OutputMicros(edit, w, ts, j);
        hide Inside, Output;
      }
    }
  }

  /** Setting the start keeps the order, and the first packet lands on the requested time or the epoch. */
  lemma SetStartKeepsOrder(edit: Edit, w: Window, ts: seq<Stamp>)
    requires edit.SetStart? && NonDecreasing(ts) && (w.last.Some? ==> w.first <= w.last.value)
    ensures NonDecreasing(Retimed(edit, w, ts))
    ensures ts != [] ==> Retimed(edit, w, ts)[0].Micros() == Max(0, edit.startMicros.Floor)
  {
    var out := Retimed(edit, w, ts);
    forall i, j | 0 <= i < j < |out| ensures out[i].Micros() <= out[j].Micros() {
      var x, y :=
        edit.startMicros + (ts[i].Micros() - ts[0].Micros()) as real, edit.startMicros
          + (ts[j].Micros() - ts[0].Micros()) as real;
      NormalisedMicros(x);
      NormalisedMicros(y);
      assert x <= y && x.Floor <= y.Floor;
    }
    if ts != [] { NormalisedMicros(edit.startMicros + 0.0); }
  }

  /**
   * A suffix shift leaves an ordered capture ordered exactly when it does not move the first shifted frame
   * before its predecessor.
   */
  lemma ShiftKeepsOrderIff(edit: Edit, w: Window, ts: seq<Stamp>)
    requires edit.Shift? && NonDecreasing(ts) && (w.last.Some? ==> w.first <= w.last.value)
    ensures NonDecreasing(Retimed(edit, w, ts)) <==>
      (0 < w.first < |ts| ==> ts[w.first - 1].Micros() <= Max(0, ts[w.first].Micros() + ShiftMicros(edit)))
  {
    var out, f, s := Retimed(edit, w, ts), w.first, ShiftMicros(edit);
    forall i | 0 <= i < |ts| ensures out[i].Micros() == if i >= f then Max(0, ts[i].Micros() + s) else ts[i].Micros() {
      NormalisedMicros((ts[i].Micros() + s) as real);
      assert ((ts[i].Micros() + s) as real).Floor == ts[i].Micros() + s;
    }
    hide Retimed, Output, Stamp.Micros, ShiftMicros;
    if 0 < f < |ts| {
      if NonDecreasing(out) { assert out[f - 1].Micros() <= out[f].Micros(); }
    }
  }

  /** Moving the second of two frames back by 15 seconds puts it before the first. */
  lemma ShiftBreaksOrder()
    ensures var ts, edit, w := [Stamp(10, 0), Stamp(20, 0)], Shift(-15.0, S), Window(1, None);
      NonDecreasing(ts) && Retimed(edit, w, ts) == [Stamp(10, 0), Stamp(5, 0)] && !NonDecreasing(Retimed(edit, w, ts))
  {
    var ts, edit, w := [Stamp(10, 0), Stamp(20, 0)], Shift(-15.0, S), Window(1, None);
    assert ShiftMicros(edit) == -15_000_000;
    var out := Retimed(edit, w, ts);
    assert out[0].Micros() == 10_000_000 && out[1].Micros() == 5_000_000;
  }

  // ---- what a request asks for ----

  /** The nearest whole number; of two equally near, the greater. */
  lemma RoundIs(x: real)
    ensures x - 0.5 < Round(x) as real <= x + 0.5
  {
  }

  /** Microseconds of a unit, a missing one being microseconds. */
  function UnitLength(unit: Option<string>): Option<real>
  {
    match unit
    case None => Some(1.0)
    case Some(name) =>
      if name == "us" then Some(1.0) else if name == "ms" then Some(1000.0)
      else if name == "s" then Some(1000000.0) else if name == "min" then Some(60000000.0) else None
  }

  lemma UnitIs(unit: Option<string>)
    ensures UnitOf(unit).Some? <==> UnitLength(unit).Some?
    ensures UnitOf(unit).Some? ==> UnitMicros(UnitOf(unit).value) as real == UnitLength(unit).value
  {
  }

  /** The first frame a range asks for, counted from 1. */
  function FirstAsked(range: Option<Range>): real
    requires range.Some? ==> range.value.from.Finite?
  {
    if range.None? then 1.0 else range.value.from.value
  }

  /** Frame number `n`, counted from 1, lies in the range asked for. */
  predicate InRange(range: Option<Range>, n: nat)
    requires range.Some? ==> range.value.from.Finite? && (range.value.to.Some? ==> range.value.to.value.Finite?)
  {
    && FirstAsked(range) <= n as real
    && (range.Some? && range.value.to.Some? ==> n as real <= range.value.to.value.value)
  }

  /** A request is accepted exactly when its range and its own argument are in order. */
  lemma AcceptedIff(request: Request, range: Option<Range>)
    ensures Check(request, range) == None
       <==> && (range.Some? ==>
                  var from, to := range.value.from, range.value.to;
                  && !request.StartAt? && from.Finite? && from.value >= 1.0 && from.value.Floor as real == from.value
                  && (to.Some? ==> to.value.Finite? && to.value.value >= from.value
                                   && to.value.value.Floor as real == to.value.value))
            && match request
               case ScaleBy(factor) => factor.Finite? && factor.value >= 0.0
               case Every(_, unit) => UnitLength(unit).Some?
               case ShiftBy(_, unit) => UnitLength(unit).Some?
               case StartAt(_, _) => true
  {
  }

  /** What an accepted request gives for frame `i`. */
  function Answer(request: Request, range: Option<Range>, ts: seq<Stamp>, i: nat): Stamp
    requires Check(request, range) == None && i < |ts|
  {
    Output(EditOf(request), WindowOf(request, range), ts, i)
  }

  lemma WindowIs(request: Request, range: Option<Range>, i: nat)
    requires Check(request, range) == None
    ensures var w := WindowOf(request, range);
      && (w.first + 1) as real == FirstAsked(range)
      && (w.Has(i) <==> InRange(range, i + 1))
      && (i < w.first <==> (i + 1) as real < FirstAsked(range))
  {
  }

  /** Inside the range, a frame's distance from the first frame of it is scaled, to the nearest microsecond. */
  lemma ScaleMeans(factor: Number, range: Option<Range>, ts: seq<Stamp>, first: nat, i: nat)
    requires Check(ScaleBy(factor), range) == None && NonDecreasing(ts) && i < |ts| && InRange(range, i + 1)
    requires (first + 1) as real == FirstAsked(range)
    ensures first <= i
    ensures var a, t := ts[first].Micros(), ts[i].Micros();
      var m, x := Answer(ScaleBy(factor), range, ts, i).Micros(), a as real + (t - a) as real * factor.value;
      (m == 0 && x < 0.5) || x - 0.5 < m as real <= x + 0.5
  {
    hide Output, Inside, Scaled, Stamp.Micros, InRange, FirstAsked;
    var request := ScaleBy(factor);
    var w := WindowOf(request, range);
    WindowIs(request, range, i);
    assert w.first == first;
    OutputMicros(EditOf(request), w, ts, i);
    InsideScaled(EditOf(request), w, ts, i);
    ScaledNear(ts[first].Micros(), ts[i].Micros(), factor.value);
  }

  lemma InsideScaled(edit: Edit, w: Window, ts: seq<Stamp>, i: nat)
    requires edit.Scale? && w.Has(i) && i < |ts|
    ensures Inside(edit, w, ts, i) == Max(0, Scaled(ts[w.first].Micros(), ts[i].Micros(), edit.factor))
  {
    hide Scaled, Stamp.Micros;
  }

  lemma ScaledNear(a: int, t: int, factor: real)
    ensures var m, x := Max(0, Scaled(a, t, factor)), a as real + (t - a) as real * factor;
      (m == 0 && x < 0.5) || x - 0.5 < m as real <= x + 0.5
  {
    var x := a as real + (t - a) as real * factor;
    assert Scaled(a, t, factor) == Round(x);
    RoundIs(x);
  }

  /** Inside the range, frames follow the first frame of it in steps of the whole microseconds of the interval. */
  lemma EveryMeans(interval: real, unit: Option<string>, range: Option<Range>, ts: seq<Stamp>, first: nat, i: nat)
    returns (step: nat)
    requires Check(Every(interval, unit), range) == None && NonDecreasing(ts) && i < |ts| && InRange(range, i + 1)
    requires (first + 1) as real == FirstAsked(range)
    ensures first <= i && UnitLength(unit).Some?
    ensures var x := interval * UnitLength(unit).value; if x < 0.0 then step == 0 else x - 1.0 < step as real <= x
    ensures Answer(Every(interval, unit), range, ts, i).Micros() == ts[first].Micros() + (i - first) * step
  {
    var request := Every(interval, unit);
    var w := WindowOf(request, range);
    UnitIs(unit);
    WindowIs(request, range, i);
    assert w.first == first;
    OutputMicros(EditOf(request), w, ts, i);
    step := IntervalMicros(EditOf(request));
    IntervalMonotone(0, i - first, step);
  }

  /** From the first frame asked for to the last of the capture, frames move by the nearest microsecond. */
  lemma ShiftMeans(delta: real, unit: Option<string>, range: Option<Range>, ts: seq<Stamp>, i: nat)
    returns (shift: int)
    requires Check(ShiftBy(delta, unit), range) == None && i < |ts|
    ensures UnitLength(unit).Some?
    ensures var x := delta * UnitLength(unit).value; x - 0.5 < shift as real <= x + 0.5
    ensures var out := Answer(ShiftBy(delta, unit), range, ts, i);
      if (i + 1) as real < FirstAsked(range) then out == ts[i] else out.Micros() == Max(0, ts[i].Micros() + shift)
  {
    var request := ShiftBy(delta, unit);
    UnitIs(unit);
    WindowIs(request, range, i);
    shift := ShiftMicros(EditOf(request));
    ShiftNear(delta, unit);
    hide Round, InRange, FirstAsked, Stamp.Micros, ShiftMicros, UnitLength;
    NormalisedMicros((ts[i].Micros() + shift) as real);
    assert ((ts[i].Micros() + shift) as real).Floor == ts[i].Micros() + shift;
  }

  lemma ShiftNear(delta: real, unit: Option<string>)
    requires UnitOf(unit).Some? && UnitLength(unit).Some?
    ensures var x, s := delta * UnitLength(unit).value, ShiftMicros(Shift(delta, UnitOf(unit).value));
      x - 0.5 < s as real <= x + 0.5
  {
    hide UnitOf, UnitLength, ShiftMicros;
    UnitIs(unit);
    var length := UnitLength(unit).value;
    UnitShift(delta, UnitOf(unit).value, length);
    RoundIs(delta * length);
  }

  lemma UnitShift(delta: real, unit: TimeUnit, length: real)
    requires UnitMicros(unit) as real == length
    ensures ShiftMicros(Shift(delta, unit)) == Round(delta * length)
  {
    hide Round;
    match unit
    case Us => assert length == 1.0;
    case Ms => assert length == 1000.0;
    case S => assert length == 1000000.0;
    case Min => assert length == 60000000.0;
  }

  /** The first frame moves to the start, the others as far as it, rounded down and never before the epoch. */
  lemma StartMeans(seconds: real, microseconds: Option<real>, ts: seq<Stamp>, i: nat)
    requires i < |ts|
    ensures var x := seconds * 1000000.0 + (if microseconds.Some? then microseconds.value else 0.0)
                       + (ts[i].Micros() - ts[0].Micros()) as real;
      var m := Answer(StartAt(seconds, microseconds), None, ts, i).Micros();
      (m == 0 && x < 1.0) || x - 1.0 < m as real <= x
  {
    var start := seconds * 1000000.0 + if microseconds.Some? then microseconds.value else 0.0;
    NormalisedMicros(start + (ts[i].Micros() - ts[0].Micros()) as real);
  }
}
