/** How the recolourings and rotations of the fix-up loops transform a tree with a focus:
    colours, black heights and symmetric order. */
module RbRules {
  import opened RbShape

  // ---------------------------------------------------------------- symmetric order

  lemma {:induction false} SameElems(p: Path, t: Tree, t': Tree)
    requires Elems(t) == Elems(t')
    ensures Elems(Plug(p, t)) == Elems(Plug(p, t'))
  {
    PlugElems(p, t);
    PlugElems(p, t');
  }

  /** A rotation, whatever it does to the colours. */
  lemma Reassociate(a: Tree, x: Node, b: Tree, y: Node, c: Tree)
    ensures forall cx, cy, dx, dy ::
      Elems(Branch(Branch(a, x, cx, b), y, cy, c)) == Elems(Branch(a, x, dx, Branch(b, y, dy, c)))
  {
    var flat := Elems(a) + [x] + Elems(b) + [y] + Elems(c);
    forall cx, cy, dx, dy
      ensures Elems(Branch(Branch(a, x, cx, b), y, cy, c)) == Elems(Branch(a, x, dx, Branch(b, y, dy, c)))
    {
      assert Elems(Branch(Branch(a, x, cx, b), y, cy, c)) == flat;
      assert Elems(Branch(a, x, dx, Branch(b, y, dy, c))) == flat;
    }
  }

  lemma {:induction false} PaintedElems(t: Tree, red: bool)
    ensures Elems(Painted(t, red)) == Elems(t)
  {}

  // ---------------------------------------------------------------- insert

  /** The focus is red and may have a red holder; nothing else is wrong. */
  ghost predicate RedFocus(p: Path, t: Tree) {
    Red(t) && Coloured(t) && PathColoured(p, BlackHeight(t))
  }

  lemma {:induction false} RecolourLeft(p: Path, t: Tree)
    requires RedFocus(p, t) && HolderRed(p) && p.up.InLeft? && Red(p.up.r)
    ensures var t' := Branch(Painted(Fill(p, t), false), p.up.n, true, Painted(p.up.r, false));
      RedFocus(p.up.up, t') && Elems(Plug(p.up.up, t')) == Elems(Plug(p, t))
  {
    var t1, u1 := Painted(Fill(p, t), false), Painted(p.up.r, false);
    assert PathColoured(p.up, BlackHeight(t));
    assert Coloured(t1) && Coloured(u1);
    SameElems(p.up.up, Branch(t1, p.up.n, true, u1), Fill(p.up, Fill(p, t)));
  }

  lemma {:induction false} RecolourRight(p: Path, t: Tree)
    requires RedFocus(p, t) && HolderRed(p) && p.up.InRight? && Red(p.up.l)
    ensures var t' := Branch(Painted(p.up.l, false), p.up.n, true, Painted(Fill(p, t), false));
      RedFocus(p.up.up, t') && Elems(Plug(p.up.up, t')) == Elems(Plug(p, t))
  {
    var t1, u1 := Painted(Fill(p, t), false), Painted(p.up.l, false);
    assert PathColoured(p.up, BlackHeight(t));
    assert Coloured(t1) && Coloured(u1);
    SameElems(p.up.up, Branch(u1, p.up.n, true, t1), Fill(p.up, Fill(p, t)));
  }

  /** An inner red grandchild is rotated outside. */
  lemma {:induction false} InnerLeft(p: Path, t: Tree)
    requires RedFocus(p, t) && p.InRight? && p.red && p.up.InLeft?
    ensures var p', t' := InLeft(p.up, t.n, true, t.r), Branch(p.l, p.n, true, t.l);
      RedFocus(p', t') && Elems(Plug(p', t')) == Elems(Plug(p, t))
  {
    Reassociate(p.l, p.n, t.l, t.n, t.r);
    SameElems(p.up, Branch(Branch(p.l, p.n, true, t.l), t.n, true, t.r), Fill(p, t));
  }

  lemma {:induction false} InnerRight(p: Path, t: Tree)
    requires RedFocus(p, t) && p.InLeft? && p.red && p.up.InRight?
    ensures var p', t' := InRight(p.up, t.l, t.n, true), Branch(t.r, p.n, true, p.r);
      RedFocus(p', t') && Elems(Plug(p', t')) == Elems(Plug(p, t))
  {
    Reassociate(t.l, t.n, t.r, p.n, p.r);
    SameElems(p.up, Branch(t.l, t.n, true, Branch(t.r, p.n, true, p.r)), Fill(p, t));
  }

  /** The final rotation of the left-hand case; the focus keeps its place below a black node. */
  lemma {:induction false} OuterLeft(p: Path, t: Tree)
    requires RedFocus(p, t) && p.InLeft? && p.red && p.up.InLeft? && !Red(p.up.r)
    ensures var p' := InLeft(p.up.up, p.n, false, Branch(p.r, p.up.n, true, p.up.r));
      RedFocus(p', t) && Elems(Plug(p', t)) == Elems(Plug(p, t))
  {
    assert PathColoured(p.up, BlackHeight(t));
    var t' := Branch(t, p.n, false, Branch(p.r, p.up.n, true, p.up.r));
    Reassociate(t, p.n, p.r, p.up.n, p.up.r);
    SameElems(p.up.up, t', Fill(p.up, Fill(p, t)));
  }

  lemma {:induction false} OuterRight(p: Path, t: Tree)
    requires RedFocus(p, t) && p.InRight? && p.red && p.up.InRight? && !Red(p.up.l)
    ensures var p' := InRight(p.up.up, Branch(p.up.l, p.up.n, true, p.l), p.n, false);
      RedFocus(p', t) && Elems(Plug(p', t)) == Elems(Plug(p, t))
  {
    assert PathColoured(p.up, BlackHeight(t));
    var t' := Branch(Branch(p.up.l, p.up.n, true, p.l), p.n, false, t);
    Reassociate(p.up.l, p.up.n, p.l, p.n, t);
    SameElems(p.up.up, t', Fill(p.up, Fill(p, t)));
  }

  // ---------------------------------------------------------------- delete

  /** The focus is one black node short of what its place needs; its root may be red,
      and then the colours of its children are not yet compared with it. */
  ghost predicate ShortFocus(p: Path, t: Tree) {
    Coloured(Painted(t, false)) && PathColoured(p, BlackHeight(t) + 1)
  }

  /** Painting a red focus black repairs the tree; at the top nothing is missing. */
  lemma {:induction false} ShortFocusDone(p: Path, t: Tree)
    requires ShortFocus(p, t) && (p.Top? || Red(t))
    ensures RedBlack(Plug(p, Painted(t, false)))
  {
    PlugColoured(p, Painted(t, false));
  }

  lemma SiblingBranches(p: Path, t: Tree)
    requires ShortFocus(p, t) && !p.Top?
    ensures p.InLeft? ==> p.r.Branch? && Coloured(p.r)
    ensures p.InRight? ==> p.l.Branch? && Coloured(p.l)
  {}

  /** Case 1: a red sibling. */
  lemma {:induction false} RedSiblingLeftRules(p: Path, t: Tree)
    requires ShortFocus(p, t) && p.InLeft? && Red(p.r)
    ensures var p' := InLeft(InLeft(p.up, p.r.n, false, p.r.r), p.n, true, p.r.l);
      !p.red && ShortFocus(p', t) && !Red(p.r.l) && Elems(Plug(p', t)) == Elems(Plug(p, t))
  {
    var t' := Branch(Branch(t, p.n, true, p.r.l), p.r.n, false, p.r.r);
    Reassociate(t, p.n, p.r.l, p.r.n, p.r.r);
    SameElems(p.up, t', Fill(p, t));
  }

  lemma {:induction false} RedSiblingRightRules(p: Path, t: Tree)
    requires ShortFocus(p, t) && p.InRight? && Red(p.l)
    ensures var p' := InRight(InRight(p.up, p.l.l, p.l.n, false), p.l.r, p.n, true);
      !p.red && ShortFocus(p', t) && !Red(p.l.r) && Elems(Plug(p', t)) == Elems(Plug(p, t))
  {
    var t' := Branch(p.l.l, p.l.n, false, Branch(p.l.r, p.n, true, t));
    Reassociate(p.l.l, p.l.n, p.l.r, p.n, t);
    SameElems(p.up, t', Fill(p, t));
  }

  /** Case 2: a black sibling with two black children. */
  lemma {:induction false} BlackNephewsLeftRules(p: Path, t: Tree)
    requires ShortFocus(p, t) && !Red(t)
    requires p.InLeft? && p.r.Branch? && !p.r.red && !Red(p.r.l) && !Red(p.r.r)
    ensures var t' := Branch(t, p.n, p.red, Painted(p.r, true));
      ShortFocus(p.up, t') && Elems(Plug(p.up, t')) == Elems(Plug(p, t))
  {
    SameElems(p.up, Branch(t, p.n, p.red, Painted(p.r, true)), Fill(p, t));
  }

  lemma {:induction false} BlackNephewsRightRules(p: Path, t: Tree)
    requires ShortFocus(p, t) && !Red(t)
    requires p.InRight? && p.l.Branch? && !p.l.red && !Red(p.l.l) && !Red(p.l.r)
    ensures var t' := Branch(Painted(p.l, true), p.n, p.red, t);
      ShortFocus(p.up, t') && Elems(Plug(p.up, t')) == Elems(Plug(p, t))
  {
    SameElems(p.up, Branch(Painted(p.l, true), p.n, p.red, t), Fill(p, t));
  }

  /** Case 3: the red nephew is the inner one. */
  lemma {:induction false} InnerNephewLeftRules(p: Path, t: Tree)
    requires ShortFocus(p, t) && p.InLeft? && p.r.Branch? && !p.r.red && Red(p.r.l) && !Red(p.r.r)
    ensures var w := p.r;
      var w' := Branch(w.l.l, w.l.n, false, Branch(w.l.r, w.n, true, w.r));
      ShortFocus(p.(r := w'), t) && Elems(Plug(p.(r := w'), t)) == Elems(Plug(p, t))
  {
    var w := p.r;
    var w' := Branch(w.l.l, w.l.n, false, Branch(w.l.r, w.n, true, w.r));
    Reassociate(w.l.l, w.l.n, w.l.r, w.n, w.r);
    assert Coloured(w.l) && Coloured(w.l.l) && Coloured(w.l.r);
    assert Coloured(Branch(w.l.r, w.n, true, w.r));
    assert Coloured(w') && BlackHeight(w') == BlackHeight(w);
    SameElems(p.up, Fill(p.(r := w'), t), Fill(p, t));
  }

  lemma {:induction false} InnerNephewRightRules(p: Path, t: Tree)
    requires ShortFocus(p, t) && p.InRight? && p.l.Branch? && !p.l.red && Red(p.l.r) && !Red(p.l.l)
    ensures var w := p.l;
      var w' := Branch(Branch(w.l, w.n, true, w.r.l), w.r.n, false, w.r.r);
      ShortFocus(p.(l := w'), t) && Elems(Plug(p.(l := w'), t)) == Elems(Plug(p, t))
  {
    var w := p.l;
    var w' := Branch(Branch(w.l, w.n, true, w.r.l), w.r.n, false, w.r.r);
    Reassociate(w.l, w.n, w.r.l, w.r.n, w.r.r);
    assert Coloured(w.r) && Coloured(w.r.l) && Coloured(w.r.r);
    assert Coloured(Branch(w.l, w.n, true, w.r.l));
    assert Coloured(w') && BlackHeight(w') == BlackHeight(w);
    SameElems(p.up, Fill(p.(l := w'), t), Fill(p, t));
  }

  /** Case 4: the outer nephew is red; one rotation finishes. */
  lemma {:induction false} OuterNephewLeftRules(p: Path, t: Tree)
    requires ShortFocus(p, t) && !Red(t) && p.InLeft? && p.r.Branch? && !p.r.red && Red(p.r.r)
    ensures var t' := Branch(Branch(t, p.n, false, p.r.l), p.r.n, p.red, Painted(p.r.r, false));
      RedBlack(Plug(p.up, t')) && Elems(Plug(p.up, t')) == Elems(Plug(p, t))
  {
    var t' := Branch(Branch(t, p.n, false, p.r.l), p.r.n, p.red, Painted(p.r.r, false));
    PaintedElems(p.r.r, false);
    Reassociate(t, p.n, p.r.l, p.r.n, p.r.r);
    assert Coloured(p.r.r) && Coloured(t'.l) && Coloured(t'.r) && BlackHeight(t'.r) == BlackHeight(p.r.r) + 1;
    SameElems(p.up, t', Fill(p, t));
    PlugColoured(p.up, t');
  }

  lemma {:induction false} OuterNephewRightRules(p: Path, t: Tree)
    requires ShortFocus(p, t) && !Red(t) && p.InRight? && p.l.Branch? && !p.l.red && Red(p.l.l)
    ensures var t' := Branch(Painted(p.l.l, false), p.l.n, p.red, Branch(p.l.r, p.n, false, t));
      RedBlack(Plug(p.up, t')) && Elems(Plug(p.up, t')) == Elems(Plug(p, t))
  {
    var t' := Branch(Painted(p.l.l, false), p.l.n, p.red, Branch(p.l.r, p.n, false, t));
    PaintedElems(p.l.l, false);
    Reassociate(p.l.l, p.l.n, p.l.r, p.n, t);
    assert Coloured(p.l.l) && Coloured(t'.l) && Coloured(t'.r) && BlackHeight(t'.l) == BlackHeight(p.l.l) + 1;
    SameElems(p.up, t', Fill(p, t));
    PlugColoured(p.up, t');
  }

  /** A node with at most one child is replaced by it: a red one is not missed. */
  lemma {:induction false} RemovedColours(p: Path, t: Tree, child: Tree)
    requires t.Branch? && ((t.l.Leaf? && child == t.r) || (t.r.Leaf? && child == t.l))
    requires Coloured(t) && PathColoured(p, BlackHeight(t))
    ensures t.red ==> RedBlack(Plug(p, child))
    ensures !t.red ==> ShortFocus(p, child)
    ensures p.Top? && !t.red ==> RedBlack(Painted(child, false))
  {
    if t.red { PlugColoured(p, child); }
  }
}
