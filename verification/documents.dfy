/** The non-rendering part of the document tree (document.py).

    Items are immutable values. A leaf text item (`Word`, `Symbol`,
    `MathVariable`, `MathSign`) carries its text, style name and rect; a
    `MultiItem` owns an ordered sequence of optional children (`None` is a
    meaningful empty slot) and a rect; a `Paragraph` (or `Title`) owns
    optional children too but, as in the source, is not a `MultiItem`: it has
    `writePDF` but neither `appendItem` nor `refit`.

    An item has no rect until a measuring pass assigns one; reading a missing
    rect is the source's attribute error, `Err(MissingRect)` here. Calling a
    method an item's class does not define is `Err(NoSuchMethod(..))`.

    The union of the children's rects is accumulated in an `Option<Rect>`
    (`None` while no present child has been seen) instead of starting from a
    rect at the origin.
 */
module Documents {
  import opened Outcomes
  import opened Points
  import opened Rects

  /** Symbol name to the text it prints as (the contents are configuration). */
  type SymbolTable = map<string, string>

  /** U+2212 MINUS SIGN, which a math sign `-` is printed as. */
  const MinusSign: string := "\U{2212}"

  /** Which `getText` a leaf uses: its own text, or a symbol-table lookup. */
  datatype TextKind = WordText | SymbolText

  datatype Item =
    | Text(kind: TextKind, text: string, style: string, rect: Option<Rect>)
    | Multi(items: seq<Option<Item>>, rect: Option<Rect>)
    | Paragraph(title: bool, items: seq<Option<Item>>, rect: Option<Rect>)

  function Kids(it: Item): seq<Option<Item>>
  {
    if it.Text? then [] else it.items
  }

  // ---------------------------------------------------------------------------
  // Leaf items and their text

  /** Word(text, style = 'body'). */
  function NewWord(text: string, style: string := "body"): (r: Item)
    ensures r.Text? && r.style == style && r.rect.None?
    ensures forall table: SymbolTable :: GetText(r, table) == Ok(text)
  {
    Text(WordText, text, style, None)
  }

  /** Symbol(name, style = 'symbol'). */
  function NewSymbol(name: string, style: string := "symbol"): (r: Item)
    ensures r.Text? && r.style == style && r.rect.None?
    ensures forall table: SymbolTable :: GetText(r, table).Ok? <==> name in table
    ensures forall table: SymbolTable :: name in table ==> GetText(r, table) == Ok(table[name])
  {
    Text(SymbolText, name, style, None)
  }

  /** MathVariable(text): a word in the 'math-var' style. */
  function NewMathVariable(text: string): (r: Item)
    ensures r.Text? && r.style == "math-var" && r.rect.None?
    ensures forall table: SymbolTable :: GetText(r, table) == Ok(text)
  {
    NewWord(text, "math-var")
  }

  /** MathSign(text): a word in the 'math-symbol' style; `-` is stored as
      the minus sign. */
  function NewMathSign(text: string): (r: Item)
    ensures r.Text? && r.style == "math-symbol" && r.rect.None?
    ensures forall table: SymbolTable ::
              GetText(r, table) == Ok(if text == "-" then MinusSign else text)
  {
    NewWord(if text == "-" then MinusSign else text, "math-symbol")
  }

  /** `getText()` of a leaf. */
  function GetText(t: Item, table: SymbolTable): (r: Result<string>)
    requires t.Text?
    ensures t.kind == WordText ==> r == Ok(t.text)
    ensures t.kind == SymbolText ==> (r.Ok? <==> t.text in table)
    ensures t.kind == SymbolText && r.Ok? ==> r.value == table[t.text]
    ensures r.Err? ==> r.error == UnknownSymbol(t.text)
  {
    match t.kind
    case WordText => Ok(t.text)
    case SymbolText =>
      if t.text in table then Ok(table[t.text]) else Err(UnknownSymbol(t.text))
  }

  // ---------------------------------------------------------------------------
  // Text output

  /** `writePDF()`: a leaf writes its text, a paragraph the text of each
      present child followed by one space; a MultiItem has no writePDF. */
  function WritePDF(it: Item, table: SymbolTable): (r: Result<string>)
    decreases it, |Kids(it)| + 1
    ensures it.Text? ==> r == GetText(it, table)
    ensures it.Multi? ==> r == Err(NoSuchMethod("writePDF"))
    ensures it.Paragraph? ==>
              (r.Ok? <==> forall j :: 0 <= j < |it.items| && it.items[j].Some? ==>
                            WritePDF(it.items[j].value, table).Ok?)
  {
    match it
    case Text(_, _, _, _) => GetText(it, table)
    case Multi(_, _) => Err(NoSuchMethod("writePDF"))
    case Paragraph(_, _, _) => WriteFrom(it, 0, table)
  }

  /** What one slot contributes to a paragraph's text. */
  function Piece(slot: Option<Item>, table: SymbolTable): Result<string>
  {
    if slot.None? then Ok("")
    else match WritePDF(slot.value, table)
      case Err(e) => Err(e)
      case Ok(t) => Ok(t + " ")
  }

  /** Concatenation of two outputs; the first failure wins. */
  function Then(a: Result<string>, b: Result<string>): Result<string>
  {
    if a.Err? then a else if b.Err? then b else Ok(a.value + b.value)
  }

  /** The paragraph loop of `writePDF` from child `k` on. */
  function WriteFrom(p: Item, k: nat, table: SymbolTable): (r: Result<string>)
    requires p.Paragraph? && k <= |p.items|
    decreases p, |p.items| - k
    ensures r.Ok? <==> forall j :: k <= j < |p.items| && p.items[j].Some? ==>
                         WritePDF(p.items[j].value, table).Ok?
  {
    if k == |p.items| then Ok("")
    else if p.items[k].None? then WriteFrom(p, k + 1, table)
    else
      match WritePDF(p.items[k].value, table)
      case Err(e) => Err(e)
      case Ok(t) =>
        match WriteFrom(p, k + 1, table)
        case Err(e) => Err(e)
        case Ok(rest) => Ok(t + " " + rest)
  }

  // ---------------------------------------------------------------------------
  // Children, union and refit

  /** `MultiItem.appendItem(item)`; only a MultiItem has it. */
  function AppendItem(m: Item, x: Option<Item>): (r: Result<Item>)
    ensures r.Ok? <==> m.Multi?
    ensures r.Err? ==> r.error == NoSuchMethod("appendItem")
    ensures r.Ok? ==> r.value.Multi? && r.value.rect == m.rect
    ensures r.Ok? ==> |r.value.items| == |m.items| + 1
    ensures r.Ok? ==> r.value.items[..|m.items|] == m.items && r.value.items[|m.items|] == x
  {
    if m.Multi? then Ok(Multi(m.items + [x], m.rect)) else Err(NoSuchMethod("appendItem"))
  }

  /** The union accumulator after one more rect. */
  function Include(acc: Option<Rect>, r: Rect): (u: Rect)
    ensures Normalised(u) && ContainsRect(u, r)
    ensures acc.Some? ==> ContainsRect(u, acc.value)
  {
    if acc.Some? then Unite(acc.value, r) else Unite(r, r)
  }

  /** Every present slot holds an item that has a rect. */
  predicate AllMeasured(items: seq<Option<Item>>)
  {
    forall k :: 0 <= k < |items| && items[k].Some? ==> items[k].value.rect.Some?
  }

  /** `getUnionRect()`: the union of the rects of the present children, in
      order; `None` when no child is present. */
  function UnionRect(items: seq<Option<Item>>): (r: Result<Option<Rect>>)
    decreases |items|
    ensures r.Ok? <==> AllMeasured(items)
    ensures r.Err? ==> r.error == MissingRect
    ensures r.Ok? ==> (r.value.None? <==> forall k :: 0 <= k < |items| ==> items[k].None?)
    ensures r.Ok? && r.value.Some? ==> Normalised(r.value.value)
    ensures r.Ok? && r.value.Some? ==>
              forall k :: 0 <= k < |items| && items[k].Some? ==>
                ContainsRect(r.value.value, items[k].value.rect.value)
  {
    if |items| == 0 then Ok(None)
    else
      var init := items[..|items| - 1];
      var last := items[|items| - 1];
      assert forall k :: 0 <= k < |init| ==> init[k] == items[k];
      match UnionRect(init)
      case Err(e) => Err(e)
      case Ok(acc) =>
        if last.None? then Ok(acc)
        else if last.value.rect.None? then Err(MissingRect)
        else
          var u := Include(acc, last.value.rect.value);
          assert acc.Some? ==> forall k :: 0 <= k < |init| && init[k].Some? ==>
                                  ContainsRect(u, init[k].value.rect.value) by {
            if acc.Some? {
              forall k | 0 <= k < |init| && init[k].Some?
                ensures ContainsRect(u, init[k].value.rect.value)
              {
                ContainsRectTransitive(u, acc.value, init[k].value.rect.value);
              }
            }
          }
          Ok(Some(u))
  }

  /** A copy of `c` with its rect replaced. */
  function WithRect(c: Item, r: Rect): Item
  {
    match c
    case Text(k, t, s, _) => Text(k, t, s, Some(r))
    case Multi(items, _) => Multi(items, Some(r))
    case Paragraph(t, items, _) => Paragraph(t, items, Some(r))
  }

  /** Both rects missing, or both present with the same spans. */
  predicate SameSize(a: Option<Rect>, b: Option<Rect>)
  {
    (a.None? <==> b.None?) &&
    (a.Some? && b.Some? ==> XSpan(a.value) == XSpan(b.value) && YSpan(a.value) == YSpan(b.value))
  }

  /** Same tree, text and styles, with every rect of the same size: only
      positions may differ. */
  predicate Congruent(a: Item, b: Item)
    decreases a
  {
    match a
    case Text(k, t, s, r) =>
      b.Text? && b.kind == k && b.text == t && b.style == s && SameSize(r, b.rect)
    case Multi(items, r) =>
      b.Multi? && SameSize(r, b.rect) && |b.items| == |items| &&
      forall j :: 0 <= j < |items| ==>
        (items[j].None? <==> b.items[j].None?) &&
        (items[j].Some? && b.items[j].Some? ==> Congruent(items[j].value, b.items[j].value))
    case Paragraph(t, items, r) =>
      b.Paragraph? && b.title == t && SameSize(r, b.rect) && |b.items| == |items| &&
      forall j :: 0 <= j < |items| ==>
        (items[j].None? <==> b.items[j].None?) &&
        (items[j].Some? && b.items[j].Some? ==> Congruent(items[j].value, b.items[j].value))
  }

  /** `child.rect.translate(dp); child.refit()` for one present child. */
  function MoveAndRefit(c: Item, dp: Point): (r: Result<Item>)
    decreases c, |Kids(c)| + 2
    ensures r.Ok? ==> c.rect.Some? && r.value.rect == Some(Rects.Translate(c.rect.value, dp))
    ensures r.Ok? ==> Congruent(c, r.value)
    ensures c.rect.None? ==> r == Err(MissingRect)
    ensures c.Paragraph? && c.rect.Some? ==> r == Err(NoSuchMethod("refit"))
  {
    if c.rect.None? then Err(MissingRect)
    else
      var moved := Rects.Translate(c.rect.value, dp);
      match c
      case Text(_, _, _, _) => Ok(WithRect(c, moved))
      case Paragraph(_, _, _) => Err(NoSuchMethod("refit"))
      case Multi(_, _) => RefitBody(c, moved)
  }

  /** The loop of `MultiItem.refit` from child `k` on: every present child
      moves by the same `dp` and is then refitted; empty slots stay empty. */
  function RefitFrom(m: Item, dp: Point, k: nat): (r: Result<seq<Option<Item>>>)
    requires m.Multi? && k <= |m.items|
    decreases m, |m.items| - k
    ensures r.Ok? ==> |r.value| == |m.items| - k
    ensures r.Ok? ==> forall j :: 0 <= j < |r.value| ==>
              (r.value[j].None? <==> m.items[k + j].None?) &&
              (r.value[j].Some? ==>
                 m.items[k + j].value.rect.Some? &&
                 r.value[j].value.rect == Some(Rects.Translate(m.items[k + j].value.rect.value, dp)) &&
                 Congruent(m.items[k + j].value, r.value[j].value))
    ensures r.Ok? ==> forall j :: 0 <= j < |r.value| && r.value[j].Some? ==>
              MoveAndRefit(m.items[k + j].value, dp) == Ok(r.value[j].value)
  {
    if k == |m.items| then Ok([])
    else
      var head: Result<Option<Item>> :=
        if m.items[k].None? then Ok(None)
        else match MoveAndRefit(m.items[k].value, dp)
          case Err(e) => Err(e)
          case Ok(c) => Ok(Some(c));
      match head
      case Err(e) => Err(e)
      case Ok(h) =>
        match RefitFrom(m, dp, k + 1)
        case Err(e) => Err(e)
        case Ok(rest) =>
          var r := [h] + rest;
          assert forall j :: 1 <= j < |r| ==> r[j] == rest[j - 1] && k + j == (k + 1) + (j - 1);
          Ok(r)
  }

  /** `MultiItem.refit()` for a MultiItem whose rect is now `target`: one
      vector, `target.p0` minus the children's union p0, is computed before
      anything moves, and every present child is moved by it. */
  function RefitBody(m: Item, target: Rect): (r: Result<Item>)
    requires m.Multi?
    decreases m, |m.items| + 1
    ensures r.Ok? ==> r.value.Multi? && r.value.rect == Some(target)
    ensures r.Ok? ==> Congruent(WithRect(m, target), r.value)
    ensures r.Ok? <==> UnionRect(m.items).Ok? && RefitFrom(m, Vector(m, target), 0).Ok?
    ensures r.Ok? ==> forall j :: 0 <= j < |m.items| && m.items[j].Some? ==>
              r.value.items[j].Some? &&
              r.value.items[j].value.rect == Some(Rects.Translate(m.items[j].value.rect.value, Vector(m, target)))
  {
    match UnionRect(m.items)
    case Err(e) => Err(e)
    case Ok(u) =>
      match RefitFrom(m, Vector(m, target), 0)
      case Err(e) => Err(e)
      case Ok(kids) => Ok(Multi(kids, Some(target)))
  }

  /** The common vector of a refit: from the children's union p0 to the
      new p0 (nothing moves when no child is present). */
  function Vector(m: Item, target: Rect): (d: Point)
    requires m.Multi?
    ensures UnionRect(m.items).Ok? && UnionRect(m.items).value.Some? ==>
              Add(UnionRect(m.items).value.value.p0, P(d)) == target.p0
  {
    match UnionRect(m.items)
    case Ok(Some(u)) => Sub(target.p0, P(u.p0))
    case _ => Origin
  }

  /** `refit()` called on an item: a leaf does nothing; a MultiItem reads the
      union of its children and its own rect, then moves the children; a
      paragraph has no refit. */
  function Refit(it: Item): (r: Result<Item>)
    ensures it.Text? ==> r == Ok(it)
    ensures it.Paragraph? ==> r == Err(NoSuchMethod("refit"))
    ensures it.Multi? && r.Ok? ==> r.value.rect == it.rect && Congruent(it, r.value)
    ensures it.Multi? && it.rect.None? ==> r.Err?
  {
    match it
    case Text(_, _, _, _) => Ok(it)
    case Paragraph(_, _, _) => Err(NoSuchMethod("refit"))
    case Multi(items, rect) =>
      if UnionRect(items).Err? then Err(MissingRect)
      else if rect.None? then Err(MissingRect)
      else
        RefitBody(it, rect.value)
  }

  // ---------------------------------------------------------------------------
  // Title

  /** A slot after the title style is applied to it. */
  function Restyle(slot: Option<Item>, style: string): Option<Item>
  {
    if slot.Some? && slot.value.Text? then Some(slot.value.(style := style)) else slot
  }

  /** `Title` forces every present child into the 'title' style before
      laying it out. Only leaves carry a style in this model. */
  function TitleStyle(p: Item): (q: Item)
    requires p.Paragraph? && p.title
    ensures q.Paragraph? && q.title && q.rect == p.rect && |q.items| == |p.items|
    ensures forall k :: 0 <= k < |p.items| ==> (q.items[k].None? <==> p.items[k].None?)
    ensures forall k :: 0 <= k < |p.items| && p.items[k].Some? && p.items[k].value.Text? ==>
              q.items[k].value.Text? && q.items[k].value.style == "title" &&
              q.items[k].value.(style := p.items[k].value.style) == p.items[k].value
    ensures forall k :: 0 <= k < |p.items| && p.items[k].Some? && !p.items[k].value.Text? ==>
              q.items[k] == p.items[k]
  {
    Paragraph(p.title, RestyleAll(p.items, "title"), p.rect)
  }

  /** `Restyle` applied to every slot. */
  function RestyleAll(items: seq<Option<Item>>, style: string): (r: seq<Option<Item>>)
    ensures |r| == |items|
    ensures forall k :: 0 <= k < |items| ==> r[k] == Restyle(items[k], style)
  {
    if |items| == 0 then [] else [Restyle(items[0], style)] + RestyleAll(items[1..], style)
  }

  // ---------------------------------------------------------------------------
  // Reference definitions for refit

  function ShiftRect(r: Option<Rect>, d: Point): Option<Rect>
  {
    if r.Some? then Some(Rects.Translate(r.value, d)) else None
  }

  /** The whole subtree moved rigidly by `d`: every rect at every depth. */
  function DeepTranslate(it: Item, d: Point): (r: Item)
    decreases it, |Kids(it)| + 1
    ensures Congruent(it, r)
    ensures r.rect == ShiftRect(it.rect, d)
  {
    match it
    case Text(k, t, s, r) => Text(k, t, s, ShiftRect(r, d))
    case Multi(_, r) => Multi(DeepFrom(it, d, 0), ShiftRect(r, d))
    case Paragraph(t, _, r) => Paragraph(t, DeepFrom(it, d, 0), ShiftRect(r, d))
  }

  /** The children of `it` from `k` on, each moved rigidly by `d`. */
  function DeepFrom(it: Item, d: Point, k: nat): (r: seq<Option<Item>>)
    requires !it.Text? && k <= |it.items|
    decreases it, |it.items| - k
    ensures |r| == |it.items| - k
    ensures forall j :: 0 <= j < |r| ==>
              (r[j].None? <==> it.items[k + j].None?) &&
              (r[j].Some? ==> r[j].value == DeepTranslate(it.items[k + j].value, d))
  {
    if k == |it.items| then []
    else
      var head := if it.items[k].None? then None else Some(DeepTranslate(it.items[k].value, d));
      [head] + DeepFrom(it, d, k + 1)
  }

  /** The state `refit` leaves an item in: every MultiItem at every depth
      has its children's union starting at its own p0, and every item has a
      rect. A paragraph cannot be refitted, so it is never fitted. */
  predicate Fitted(it: Item)
    decreases it
  {
    match it
    case Text(_, _, _, r) => r.Some?
    case Paragraph(_, _, _) => false
    case Multi(items, r) =>
      r.Some? && UnionRect(items).Ok? &&
      (UnionRect(items).value.Some? ==> UnionRect(items).value.value.p0 == r.value.p0) &&
      forall j :: 0 <= j < |items| && items[j].Some? ==> Fitted(items[j].value)
  }

  /** Two slot sequences with the same empty slots, each present rect of
      `b` being that of `a` moved by `d`. */
  predicate MovedSlots(a: seq<Option<Item>>, b: seq<Option<Item>>, d: Point)
  {
    |a| == |b| &&
    forall j :: 0 <= j < |a| ==>
      (a[j].None? <==> b[j].None?) &&
      (a[j].Some? && b[j].Some? ==> b[j].value.rect == ShiftRect(a[j].value.rect, d))
  }

  function ShiftUnion(u: Result<Option<Rect>>, d: Point): Result<Option<Rect>>
  {
    if u.Ok? then Ok(ShiftRect(u.value, d)) else u
  }

  // ---------------------------------------------------------------------------
  // Properties

  /** The text and style each leaf constructor gives. */
  lemma LeafTexts(t: string, table: SymbolTable)
    ensures GetText(NewWord(t), table) == Ok(t) && NewWord(t).style == "body"
    ensures GetText(NewMathVariable(t), table) == Ok(t) && NewMathVariable(t).style == "math-var"
    ensures GetText(NewMathSign("-"), table) == Ok(MinusSign)
    ensures t != "-" ==> GetText(NewMathSign(t), table) == Ok(t)
    ensures NewMathSign(t).style == "math-symbol"
    ensures NewSymbol(t).style == "symbol"
    ensures t in table ==> GetText(NewSymbol(t), table) == Ok(table[t])
    ensures t !in table ==> GetText(NewSymbol(t), table) == Err(UnknownSymbol(t))
  {
  }

  /** A paragraph writes each child then one space, and stops at the first
      child that cannot be written. */
  lemma ParagraphExample()
    ensures var table := map["alpha" := "\U{03B1}", "beta" := "\U{03B2}"];
            var p := Paragraph(false, [Some(NewSymbol("alpha")), Some(NewMathSign("+")),
                                       None, Some(NewSymbol("beta")), Some(NewWord("=gamma"))], None);
            WritePDF(p, table) == Ok("\U{03B1} + \U{03B2} =gamma ")
    ensures var p := Paragraph(false, [Some(NewWord("x")), Some(NewSymbol("delta")),
                                       Some(NewSymbol("zeta"))], None);
            WritePDF(p, map[]) == Err(UnknownSymbol("delta"))
  {
    var table := map["alpha" := "\U{03B1}", "beta" := "\U{03B2}"];
    var p := Paragraph(false, [Some(NewSymbol("alpha")), Some(NewMathSign("+")),
                               None, Some(NewSymbol("beta")), Some(NewWord("=gamma"))], None);
    assert WriteFrom(p, 5, table) == Ok("");
    assert WritePDF(p.items[4].value, table) == Ok("=gamma");
    assert "=gamma" + " " + "" == "=gamma ";
    assert WriteFrom(p, 4, table) == Ok("=gamma ");
    assert WritePDF(p.items[3].value, table) == Ok("\U{03B2}");
    assert "\U{03B2}" + " " + "=gamma " == "\U{03B2} =gamma ";
    assert WriteFrom(p, 2, table) == Ok("\U{03B2} =gamma ");
    assert WritePDF(p.items[1].value, table) == Ok("+");
    assert "+" + " " + "\U{03B2} =gamma " == "+ \U{03B2} =gamma ";
    assert WriteFrom(p, 1, table) == Ok("+ \U{03B2} =gamma ");
    assert WritePDF(p.items[0].value, table) == Ok("\U{03B1}");
    assert "\U{03B1}" + " " + "+ \U{03B2} =gamma " == "\U{03B1} + \U{03B2} =gamma ";
    var e := Paragraph(false, [Some(NewWord("x")), Some(NewSymbol("delta")),
                               Some(NewSymbol("zeta"))], None);
    assert WriteFrom(e, 1, map[]) == Err(UnknownSymbol("delta"));
  }

  /** Appending a child to a paragraph's items appends that child's piece to
      its text (or its error, when everything before it was written). */
  lemma {:induction false} WriteFromAppend(p: Item, x: Option<Item>, k: nat, table: SymbolTable)
    requires p.Paragraph? && k <= |p.items|
    ensures WriteFrom(Paragraph(p.title, p.items + [x], p.rect), k, table)
            == Then(WriteFrom(p, k, table), Piece(x, table))
    decreases |p.items| - k
  {
    var q := Paragraph(p.title, p.items + [x], p.rect);
    if k == |p.items| {
      assert q.items[k] == x;
      assert WriteFrom(q, k + 1, table) == Ok("");
      assert WriteFrom(p, k, table) == Ok("");
      if x.Some? {
        match WritePDF(x.value, table)
        case Err(e) =>
          assert WriteFrom(q, k, table) == Err(e);
        case Ok(t) =>
          assert t + " " + "" == "" + (t + " ");
          assert WriteFrom(q, k, table) == Ok(t + " " + "");
      } else {
        assert WriteFrom(q, k, table) == Ok("");
        assert Piece(x, table) == Ok("");
        assert "" + "" == "";
      }
    } else {
      assert q.items[k] == p.items[k];
      WriteFromAppend(p, x, k + 1, table);
      if p.items[k].Some? && WritePDF(p.items[k].value, table).Ok? &&
         WriteFrom(p, k + 1, table).Ok? && Piece(x, table).Ok? {
        var t := WritePDF(p.items[k].value, table).value;
        var rest := WriteFrom(p, k + 1, table).value;
        assert t + " " + (rest + Piece(x, table).value) == (t + " " + rest) + Piece(x, table).value;
      }
    }
  }

  /** The title style changes styles only, never the written text. */
  lemma {:induction false} TitleKeepsText(p: Item, k: nat, table: SymbolTable)
    requires p.Paragraph? && p.title && k <= |p.items|
    ensures WriteFrom(TitleStyle(p), k, table) == WriteFrom(p, k, table)
    decreases |p.items| - k
  {
    if k < |p.items| {
      var q := TitleStyle(p);
      assert q.items[k] == Restyle(p.items[k], "title");
      RestyleKeepsText(p.items[k], "title", table);
      TitleKeepsText(p, k + 1, table);
    }
  }

  /** Restyling one slot leaves its written text as it was. */
  lemma RestyleKeepsText(slot: Option<Item>, style: string, table: SymbolTable)
    ensures Restyle(slot, style).None? <==> slot.None?
    ensures slot.Some? ==> WritePDF(Restyle(slot, style).value, table) == WritePDF(slot.value, table)
  {
  }

  /** Applying the title style twice is the same as applying it once. */
  lemma TitleStyleIdempotent(p: Item)
    requires p.Paragraph? && p.title
    ensures TitleStyle(TitleStyle(p)) == TitleStyle(p)
  {
  }

  /** Appending a present, measured child grows the union to cover it. */
  lemma AppendThenUnion(m: Item, c: Item)
    requires m.Multi? && c.rect.Some?
    ensures var r := AppendItem(m, Some(c));
            r.Ok? &&
            UnionRect(r.value.items) ==
              (if UnionRect(m.items).Err? then UnionRect(m.items)
               else Ok(Some(Include(UnionRect(m.items).value, c.rect.value))))
  {
    var items := m.items + [Some(c)];
    assert items[..|items| - 1] == m.items;
  }

  /** The union is the smallest normalised rectangle covering every present
      child's rect. */
  lemma {:induction false} UnionIsSmallest(items: seq<Option<Item>>, q: Rect)
    requires UnionRect(items).Ok? && UnionRect(items).value.Some?
    requires forall k :: 0 <= k < |items| && items[k].Some? ==>
               ContainsRect(q, items[k].value.rect.value)
    ensures ContainsRect(q, UnionRect(items).value.value)
    decreases |items|
  {
    var init := items[..|items| - 1];
    var last := items[|items| - 1];
    assert forall k :: 0 <= k < |init| ==> init[k] == items[k];
    if UnionRect(init).value.Some? {
      UnionIsSmallest(init, q);
    }
  }

  /** Moving every present child by `d` moves the union by `d`. */
  lemma {:induction false} UnionOfMoved(a: seq<Option<Item>>, b: seq<Option<Item>>, d: Point)
    requires MovedSlots(a, b, d)
    ensures UnionRect(b) == ShiftUnion(UnionRect(a), d)
    decreases |a|
  {
    if |a| > 0 {
      var n := |a| - 1;
      assert MovedSlots(a[..n], b[..n], d);
      UnionOfMoved(a[..n], b[..n], d);
      if UnionRect(a[..n]).Ok? && a[n].Some? && a[n].value.rect.Some? {
        IncludeShift(UnionRect(a[..n]).value, a[n].value.rect.value, d);
      }
    }
  }

  /** Growing the union commutes with moving it. */
  lemma IncludeShift(acc: Option<Rect>, r: Rect, d: Point)
    ensures Include(ShiftRect(acc, d), Rects.Translate(r, d)) == Rects.Translate(Include(acc, r), d)
  {
    if acc.Some? {
      UniteTranslate(acc.value, r, d);
    } else {
      UniteTranslate(r, r, d);
    }
  }

  /** A successful refit of a moved child leaves that child fitted. */
  lemma {:induction false} MoveAndRefitFits(c: Item, dp: Point)
    requires MoveAndRefit(c, dp).Ok?
    ensures Fitted(MoveAndRefit(c, dp).value)
    decreases c
  {
    if c.Multi? {
      var target := Rects.Translate(c.rect.value, dp);
      RefitBodyFits(c, target);
    }
  }

  /** After `refit` succeeds on a MultiItem, its children's union starts at
      its own p0 and every child is fitted in turn. */
  lemma {:induction false} RefitBodyFits(m: Item, target: Rect)
    requires m.Multi? && RefitBody(m, target).Ok?
    ensures Fitted(RefitBody(m, target).value)
    decreases m, 1
  {
    var dp := Vector(m, target);
    var kids := RefitFrom(m, dp, 0).value;
    RefitBodyShape(m, target);
    RefitFromMoves(m, dp);
    UnionOfMoved(m.items, kids, dp);
    FittedKids(m, dp);
    var u := UnionRect(m.items).value;
    assert u.Some? ==> UnionRect(kids).value.value.p0 == target.p0;
    FittedMulti(kids, Some(target));
  }

  /** What a successful `RefitBody` builds. */
  lemma RefitBodyShape(m: Item, target: Rect)
    requires m.Multi? && RefitBody(m, target).Ok?
    ensures RefitBody(m, target).value == Multi(RefitFrom(m, Vector(m, target), 0).value, Some(target))
  {
  }

  /** The refit loop moves each present child's rect by `dp`. */
  lemma RefitFromMoves(m: Item, dp: Point)
    requires m.Multi? && RefitFrom(m, dp, 0).Ok?
    ensures MovedSlots(m.items, RefitFrom(m, dp, 0).value, dp)
  {
    var kids := RefitFrom(m, dp, 0).value;
    assert forall j :: 0 <= j < |kids| ==> m.items[0 + j] == m.items[j];
  }

  /** Every child the refit loop produces is fitted. */
  lemma {:induction false} FittedKids(m: Item, dp: Point)
    requires m.Multi? && RefitFrom(m, dp, 0).Ok?
    ensures forall j :: 0 <= j < |RefitFrom(m, dp, 0).value| && RefitFrom(m, dp, 0).value[j].Some? ==>
              Fitted(RefitFrom(m, dp, 0).value[j].value)
    decreases m, 0
  {
    var kids := RefitFrom(m, dp, 0).value;
    forall j | 0 <= j < |kids| && kids[j].Some?
      ensures Fitted(kids[j].value)
    {
      MoveAndRefitFits(m.items[j].value, dp);
    }
  }

  /** The unfolding of `Fitted` for a MultiItem, as an introduction rule. */
  lemma FittedMulti(items: seq<Option<Item>>, r: Option<Rect>)
    requires r.Some? && UnionRect(items).Ok?
    requires UnionRect(items).value.Some? ==> UnionRect(items).value.value.p0 == r.value.p0
    requires forall j :: 0 <= j < |items| && items[j].Some? ==> Fitted(items[j].value)
    ensures Fitted(Multi(items, r))
  {
  }

  /** Refit of the children of a MultiItem whose children are all fitted:
      each one is moved rigidly. `c` is the item the children came from. */
  lemma {:induction false} RefitFromFitted(c: Item, m: Item, dp: Point, k: nat)
    requires c.Multi? && m.Multi? && m.items == c.items && k <= |m.items|
    requires forall j :: k <= j < |m.items| && m.items[j].Some? ==> Fitted(m.items[j].value)
    ensures RefitFrom(m, dp, k) == Ok(DeepFrom(m, dp, k))
    decreases c, |c.items| - k
  {
    if k < |m.items| {
      if m.items[k].Some? {
        MoveAndRefitFitted(m.items[k].value, dp);
      }
      RefitFromFitted(c, m, dp, k + 1);
    }
  }

  /** Moving a fitted item and refitting it moves its whole subtree rigidly
      by the same vector. */
  lemma {:induction false} MoveAndRefitFitted(c: Item, d: Point)
    requires Fitted(c)
    ensures MoveAndRefit(c, d) == Ok(DeepTranslate(c, d))
    decreases c, |Kids(c)| + 2
  {
    if c.Multi? {
      var target := Rects.Translate(c.rect.value, d);
      RefitBodyFitted(c, c, target, d);
    }
  }

  /** `RefitBody` on the children of fitted `c` whose rect moves by `d`. */
  lemma {:induction false} RefitBodyFitted(c: Item, m: Item, target: Rect, d: Point)
    requires Fitted(c) && c.Multi? && m.Multi? && m.items == c.items
    requires target == Rects.Translate(c.rect.value, d)
    ensures RefitBody(m, target) == Ok(DeepTranslate(c, d))
    decreases c, |c.items| + 1
  {
    var u := UnionRect(c.items).value;
    var dp := Vector(m, target);
    RefitFromFitted(c, m, dp, 0);
    var kids := DeepFrom(m, dp, 0);
    var want := DeepFrom(c, d, 0);
    if u.Some? {
      assert dp == d;
    } else {
      assert forall j :: 0 <= j < |c.items| ==> c.items[j].None?;
    }
    assert |kids| == |want|;
    assert forall j :: 0 <= j < |kids| ==> kids[j] == want[j];
    assert kids == want;
  }

  /** After its rect is moved by `d`, refitting a fitted MultiItem moves
      every rect beneath it by that same `d` and changes nothing else. */
  lemma RefitAfterMove(it: Item, d: Point)
    requires it.Multi? && Fitted(it)
    ensures Refit(WithRect(it, Rects.Translate(it.rect.value, d))) == Ok(DeepTranslate(it, d))
  {
    var target := Rects.Translate(it.rect.value, d);
    RefitBodyFitted(it, WithRect(it, target), target, d);
  }

  /** A successful refit leaves a MultiItem fitted. */
  lemma RefitFits(it: Item)
    requires it.Multi? && Refit(it).Ok?
    ensures Fitted(Refit(it).value)
  {
    RefitBodyFits(it, it.rect.value);
  }

  /** Moving by the zero vector changes nothing. */
  lemma {:induction false} DeepTranslateOrigin(it: Item)
    ensures DeepTranslate(it, Origin) == it
    decreases it
  {
    if !it.Text? {
      forall j | 0 <= j < |it.items| && it.items[j].Some?
        ensures DeepTranslate(it.items[j].value, Origin) == it.items[j].value
      {
        DeepTranslateOrigin(it.items[j].value);
      }
      var kids := DeepFrom(it, Origin, 0);
      assert forall j :: 0 <= j < |kids| ==> kids[j] == it.items[j];
      assert kids == it.items;
    }
  }

  /** Refitting a freshly refitted MultiItem changes nothing. */
  lemma RefitIdempotent(it: Item)
    requires it.Multi? && Refit(it).Ok?
    ensures Refit(Refit(it).value) == Refit(it)
  {
    var r := Refit(it).value;
    RefitFits(it);
    RefitAfterMove(r, Origin);
    DeepTranslateOrigin(r);
    assert WithRect(r, Rects.Translate(r.rect.value, Origin)) == r;
  }
}
