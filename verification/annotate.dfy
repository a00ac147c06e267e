/**
 * `MacroEngine.ExecuteAnnotate`: each element becomes a drawable container,
 * is placed, styled, fitted (text) and added to the current surface.
 */
module AnnotateStage {
  import opened Wrappers
  import opened Int32
  import opened Models
  import opened Runtime
  import opened StyleMapper
  import Text

  /** The container kind for a lower-cased element `type`. */
  function ElementKindOf(t: string): Option<ElementKind> {
    if t == "rectangle" then Some(Rectangle)
    else if t == "arrow" then Some(Arrow)
    else if t == "text" then Some(TextBox)
    else if t == "obfuscate" then Some(Obfuscate)
    else None
  }

  /** The container kind an element asks for; `None` for a null or unknown `type`. */
  function KindOf(el: MacroElement): Option<ElementKind> {
    if el.kind.None? then None else ElementKindOf(Text.ToLower(el.kind.value))
  }

  /**
   * A new container of `kind` with the element's geometry. Rectangles and
   * obfuscations take the bounds; an arrow starts at `from` and its width and
   * height are the (unchecked 32-bit) deltas to `to`; a text box takes the
   * position and the content, `""` for none.
   */
  function Place(kind: ElementKind, el: MacroElement): Container {
    var blank := Container(kind, None, None, None, None, None, []);
    match kind
    case Arrow =>
      if el.from.None? || el.to.None? then blank
      else
        var from, to := el.from.value, el.to.value;
        blank.(left := Some(from.x), top := Some(from.y),
               width := Some(Sub(to.x, from.x)), height := Some(Sub(to.y, from.y)))
    case TextBox =>
      var placed := if el.position.None? then blank
        else blank.(left := Some(el.position.value.x), top := Some(el.position.value.y));
      placed.(text := Some(el.content.GetOr("")))
    case _ =>
      if el.bounds.None? then blank
      else
        var b := el.bounds.value;
        blank.(left := Some(b.x), top := Some(b.y), width := Some(b.w), height := Some(b.h))
  }

  /** `FitToText` on a text container, once it is styled; other containers keep their size. */
  function Fit(env: Env, c: Container): Container {
    if c.kind != TextBox then c
    else
      var (w, h) := env.fitToText(c);
      c.(width := Some(w), height := Some(h))
  }

  /** The rectangle a placed container covers, read back as bounds. */
  function BoundsOf(c: Container): Option<MacroBounds> {
    if c.left.Some? && c.top.Some? && c.width.Some? && c.height.Some?
    then Some(MacroBounds(c.left.value, c.top.value, c.width.value, c.height.value))
    else None
  }

  /**
   * The container added for an element once its style has set `fields`. Its kind
   * and fields are what was asked for; the geometry can be read back: bounds as
   * given, an arrow's end point as the start plus the deltas, a text box's
   * position and content.
   */
  function Build(env: Env, kind: ElementKind, el: MacroElement, fields: seq<FieldAssignment>): (c: Container)
    ensures c.kind == kind && c.fields == fields
    ensures kind in {Rectangle, Obfuscate} ==> BoundsOf(c) == el.bounds && c.text.None?
    ensures kind == Arrow && el.from.Some? && el.to.Some? ==>
      && c.left == Some(el.from.value.x) && c.top == Some(el.from.value.y)
      && c.width.Some? && c.height.Some?
    ensures kind == Arrow && (el.from.None? || el.to.None?) ==> BoundsOf(c).None?
    ensures kind == TextBox ==>
      && c.text == Some(el.content.GetOr(""))
      && (el.position.Some? ==> c.left == Some(el.position.value.x) && c.top == Some(el.position.value.y))
      && c.width.Some? && c.height.Some?
  {
    Fit(env, Place(kind, el).(fields := fields))
  }

  /**
   * An arrow's stored deltas give back its end point: start plus width and
   * height, in wrapping 32-bit arithmetic, is `to`, even when the subtraction overflowed.
   */
  lemma ArrowEndRecovered(env: Env, el: MacroElement, fields: seq<FieldAssignment>)
    requires el.from.Some? && el.to.Some?
    ensures var c := Build(env, Arrow, el, fields);
      Add(c.left.value, c.width.value) == el.to.value.x && Add(c.top.value, c.height.value) == el.to.value.y
  {
    AddSubCancel(el.from.value.x, el.to.value.x);
    AddSubCancel(el.from.value.y, el.to.value.y);
  }

  /** What one element of the `foreach` does. */
  datatype ElementOutcome =
    | NullType                                  // `type` is null: the step throws
    | UnknownType(name: string)                 // unknown `type`: logged and skipped
    | StyleFailed(log: seq<Event>, error: Error) // the style threw after logging `log`
    | Added(c: Container, log: seq<Event>)      // `c` is added after logging `log`

  /**
   * One element: its kind from `type`, then its style applied, then the
   * container built from the fields the style set.
   */
  function AddOne(env: Env, el: MacroElement): (r: ElementOutcome)
    ensures r.NullType? <==> el.kind.None?
    ensures r.UnknownType? <==> el.kind.Some? && KindOf(el).None?
    ensures r.UnknownType? ==> r.name == el.kind.value
    ensures r.Added? ==> KindOf(el).Some? && r.c.kind == KindOf(el).value
  {
    if el.kind.None? then NullType
    else
      match KindOf(el)
      case None => UnknownType(el.kind.value)
      case Some(kind) =>
        var styled := ApplyStyle(env, kind, el.style);
        if styled.failure.Some? then StyleFailed(styled.log, styled.failure.value)
        else Added(Build(env, kind, el, styled.fields), styled.log)
  }

  /** `AddOne` for a fixed environment, as a function value. */
  function Step(env: Env): MacroElement -> ElementOutcome {
    (el: MacroElement) => AddOne(env, el)
  }

  /** `f` applied to each element, in order. */
  function Each(f: MacroElement -> ElementOutcome, els: seq<MacroElement>): (r: seq<ElementOutcome>)
    ensures |r| == |els|
    ensures forall i :: 0 <= i < |els| ==> r[i] == f(els[i])
  {
    if |els| == 0 then [] else [f(els[0])] + Each(f, els[1..])
  }

  /** Each element's outcome, in order. */
  function Outcomes(env: Env, els: seq<MacroElement>): seq<ElementOutcome> {
    Each(Step(env), els)
  }

  /**
   * The `foreach` over the outcomes, on surface `s` with effects `log`. A null
   * `type` throws; an unknown one is logged and skipped; a style that throws
   * ends the step with the containers added so far kept.
   */
  function Fold(s: Surface, log: seq<Event>, outs: seq<ElementOutcome>): (o: Outcome)
    ensures o.engine.surface.Some? && o.engine.surface.value.image == s.image
    ensures s.elements <= o.engine.surface.value.elements
    ensures log <= o.engine.log
    decreases |outs|
  {
    if |outs| == 0 then Completed(Engine(Some(s), log))
    else
      match outs[0]
      case NullType => Aborted(Engine(Some(s), log), NullElementType)
      case UnknownType(name) => Fold(s, log + [Warned(UnsupportedElement(name))], outs[1..])
      case StyleFailed(l, err) => Aborted(Engine(Some(s), log + l), err)
      case Added(c, l) => Fold(s.(elements := s.elements + [c]), log + l, outs[1..])
  }

  /**
   * The `foreach` over the elements. Every collaborator is a pure function
   * here, so working out each element's outcome up front gives the same run
   * as working it out when the loop reaches it.
   */
  function AddElements(env: Env, s: Surface, log: seq<Event>, els: seq<MacroElement>): (o: Outcome)
    ensures o.engine.surface.Some? && o.engine.surface.value.image == s.image
    ensures s.elements <= o.engine.surface.value.elements
    ensures log <= o.engine.log
  {
    Fold(s, log, Outcomes(env, els))
  }

  /** The annotate step: it needs a surface, and does nothing without an element list. */
  function Annotate(env: Env, e: Engine, step: MacroStep): (o: Outcome)
    ensures e.surface.None? ==> o == Aborted(e, NoSurfaceToAnnotate)
    ensures e.surface.Some? ==>
      && o.engine.surface.Some? && o.engine.surface.value.image == e.surface.value.image
      && e.surface.value.elements <= o.engine.surface.value.elements
      && e.log <= o.engine.log
    ensures step.elements.None? && e.surface.Some? ==> o == Completed(e)
  {
    match e.surface
    case None => Aborted(e, NoSurfaceToAnnotate)
    case Some(s) =>
      if step.elements.None? then Completed(e) else AddElements(env, s, e.log, step.elements.value)
  }

  // ---- properties ----

  /** The containers of the outcomes that add one, in order. */
  function Containers(outs: seq<ElementOutcome>): seq<Container> {
    if |outs| == 0 then []
    else (if outs[0].Added? then [outs[0].c] else []) + Containers(outs[1..])
  }

  /** No outcome throws. */
  predicate NoThrow(outs: seq<ElementOutcome>) {
    forall i :: 0 <= i < |outs| ==> outs[i].UnknownType? || outs[i].Added?
  }

  /** A loop that completes met no throwing outcome and added exactly their containers, in order. */
  lemma {:induction false} FoldCompleted(s: Surface, log: seq<Event>, outs: seq<ElementOutcome>)
    ensures Fold(s, log, outs).Completed? <==> NoThrow(outs)
    ensures Fold(s, log, outs).Completed? ==>
      Fold(s, log, outs).engine.surface == Some(Surface(s.image, s.elements + Containers(outs)))
    decreases |outs|
  {
    if |outs| == 0 {
      assert s.elements + [] == s.elements;
    } else {
      var rest := outs[1..];
      assert NoThrow(outs) <==> (outs[0].UnknownType? || outs[0].Added?) && NoThrow(rest) by {
        if NoThrow(rest) && (outs[0].UnknownType? || outs[0].Added?) {
          forall i | 0 < i < |outs| ensures outs[i].UnknownType? || outs[i].Added? {
            assert outs[i] == rest[i - 1];
          }
        }
      }
      match outs[0]
      case NullType =>
      case StyleFailed(_, _) =>
      case UnknownType(name) =>
        FoldCompleted(s, log + [Warned(UnsupportedElement(name))], rest);
        assert Containers(outs) == [] + Containers(rest) == Containers(rest);
      case Added(c, l) =>
        FoldCompleted(s.(elements := s.elements + [c]), log + l, rest);
        assert Containers(outs) == [c] + Containers(rest);
        assert (s.elements + [c]) + Containers(rest) == s.elements + Containers(outs);
    }
  }

  /** The outcomes of `xs + ys` are those of `xs`, then those of `ys`. */
  lemma {:induction false} EachAppend(f: MacroElement -> ElementOutcome, xs: seq<MacroElement>, ys: seq<MacroElement>)
    ensures Each(f, xs + ys) == Each(f, xs) + Each(f, ys)
  {
    if |xs| == 0 {
      assert xs + ys == ys;
    } else {
      assert (xs + ys)[0] == xs[0];
      assert (xs + ys)[1..] == xs[1..] + ys;
      EachAppend(f, xs[1..], ys);
    }
  }

  /**
   * A step that completes met no null type and no failing style, and added
   * one container per element of a known type, in element order, after the
   * existing ones.
   */
  lemma AddedInOrder(env: Env, s: Surface, log: seq<Event>, els: seq<MacroElement>)
    requires AddElements(env, s, log, els).Completed?
    ensures AddElements(env, s, log, els).engine.surface ==
      Some(Surface(s.image, s.elements + Containers(Outcomes(env, els))))
    ensures forall i :: 0 <= i < |els| ==>
      (els[i].kind.Some? && (KindOf(els[i]).Some? <==> Outcomes(env, els)[i].Added?))
  {
    var outs := Outcomes(env, els);
    FoldCompleted(s, log, outs);
    forall i | 0 <= i < |els|
      ensures els[i].kind.Some? && (KindOf(els[i]).Some? <==> outs[i].Added?)
    {
      assert outs[i] == AddOne(env, els[i]);
      assert outs[i].UnknownType? || outs[i].Added?;
    }
  }

  /**
   * An element of a known type is added exactly when its style does not throw;
   * the container then has the element's kind, carries the fields the style
   * set, sits at the element's bounds when it is a rectangle or an obfuscation,
   * and holds the element's text (empty when absent) when it is a text box.
   * When the style throws, its warnings and error are what the step reports.
   */
  lemma AddedContainer(env: Env, el: MacroElement)
    requires KindOf(el).Some?
    ensures var kind := KindOf(el).value;
      var styled := ApplyStyle(env, kind, el.style);
      var r := AddOne(env, el);
      && (r.Added? <==> styled.failure.None?)
      && (styled.failure.Some? ==> r == StyleFailed(styled.log, styled.failure.value))
      && (r.Added? ==>
          && r.c.kind == kind && r.c.fields == styled.fields && r.log == styled.log
          && (kind in {Rectangle, Obfuscate} ==> BoundsOf(r.c) == el.bounds)
          && (kind == TextBox ==> r.c.text == Some(el.content.GetOr(""))))
  {
    var kind := KindOf(el).value;
    var styled := ApplyStyle(env, kind, el.style);
    if styled.failure.None? {
      var c := Build(env, kind, el, styled.fields);
      assert AddOne(env, el) == Added(c, styled.log);
    }
  }

  /**
   * Annotating with `xs + ys` is annotating with `xs` and then, unless that
   * threw, with `ys` from where it stopped.
   */
  lemma AddElementsAppend(env: Env, s: Surface, log: seq<Event>, xs: seq<MacroElement>, ys: seq<MacroElement>)
    ensures var first := AddElements(env, s, log, xs);
      AddElements(env, s, log, xs + ys) ==
        if first.Aborted? then first
        else AddElements(env, first.engine.surface.value, first.engine.log, ys)
  {
    EachAppend(Step(env), xs, ys);
    FoldAppend(s, log, Outcomes(env, xs), Outcomes(env, ys));
  }

  lemma {:induction false} FoldAppend(s: Surface, log: seq<Event>, xs: seq<ElementOutcome>, ys: seq<ElementOutcome>)
    ensures var first := Fold(s, log, xs);
      Fold(s, log, xs + ys) ==
        if first.Aborted? then first
        else Fold(first.engine.surface.value, first.engine.log, ys)
    decreases |xs|
  {
    if |xs| == 0 {
      assert xs + ys == ys;
    } else {
      assert (xs + ys)[0] == xs[0];
      assert (xs + ys)[1..] == xs[1..] + ys;
      match xs[0]
      case NullType =>
      case StyleFailed(_, _) =>
      case UnknownType(name) =>
        FoldAppend(s, log + [Warned(UnsupportedElement(name))], xs[1..], ys);
      case Added(c, l) =>
        FoldAppend(s.(elements := s.elements + [c]), log + l, xs[1..], ys);
    }
  }

  /** An element whose `type` is not one of the four adds a warning and nothing else. */
  lemma UnknownElementSkipped(env: Env, s: Surface, log: seq<Event>, el: MacroElement, rest: seq<MacroElement>)
    requires el.kind.Some? && KindOf(el).None?
    ensures AddElements(env, s, log, [el] + rest) ==
      AddElements(env, s, log + [Warned(UnsupportedElement(el.kind.value))], rest)
  {
    EachAppend(Step(env), [el], rest);
    assert Outcomes(env, [el]) == [AddOne(env, el)];
  }

  /** The element type is matched without regard to ASCII case. */
  lemma KindIgnoresCase(el: MacroElement, t: string)
    requires el.kind.Some? && Text.ToLower(t) == Text.ToLower(el.kind.value)
    ensures KindOf(el.(kind := Some(t))) == KindOf(el)
  {
  }
}
