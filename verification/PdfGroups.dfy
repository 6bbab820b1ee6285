/** Grouping the primitives of a PDF page, and giving object numbers to the groups (gl2psPDFgroupListInit,
    gl2psSortOutTrianglePDFgroup and the resource passes in lib/bayesopt/matplotpp/gl2ps.c). */
module PdfGroups {
  import opened Sequences
  import Gl2ps = BspPrimitives

  datatype Color = Color(r: real, g: real, b: real)

  predicate SameColor(c: Color, d: Color) {
    Gl2ps.Negligible(c.r - d.r) && Gl2ps.Negligible(c.g - d.g) && Gl2ps.Negligible(c.b - d.b)
  }

  /** The components differ by less than the tolerance. */
  ghost predicate Close(c: Color, d: Color) {
    && -Gl2ps.TINY < c.r - d.r < Gl2ps.TINY && -Gl2ps.TINY < c.g - d.g < Gl2ps.TINY
    && -Gl2ps.TINY < c.b - d.b < Gl2ps.TINY
  }

  datatype Alpha = AlphaOne | AlphaLess | AlphaVaries

  /** The properties of a triangle: whether its color varies, and its alpha. */
  datatype Property = Property(varColor: bool, alpha: Alpha)

  datatype Kind = Pixmap | Text | Line | Point | Triangle | Other(code: int)

  /** What grouping looks at; `color` is that of the first vertex, `rgba` the format of a pixmap. */
  datatype Item = Item(kind: Kind, color: Color, width: real, pattern: int, factor: int, prop: Property, rgba: bool)

  /** A group with its object numbers: for the graphics state, the transparency group, the mask shader, the shader,
      the image and the font. A number is -1 before it is assigned. */
  datatype Group = Group(items: seq<Item>, gsobjno: int, trgroupobjno: int, maskshobjno: int, shobjno: int,
                         imobjno: int, fontobjno: int)

  function NewGroup(p: Item): Group {
    Group([p], -1, -1, -1, -1, -1, -1)
  }

  /** Items of other kinds are in no group. */
  predicate Grouped(p: Item) {
    !p.kind.Other?
  }

  function GroupedItems(ps: seq<Item>): seq<Item> {
    if ps == [] then []
    else
      var p := ps[|ps| - 1];
      GroupedItems(ps[..|ps| - 1]) + if Grouped(p) then [p] else []
  }

  /** q is drawn like its predecessor p, and joins its group. Simple triangles of one color have groups of their own. */
  predicate Joins(p: Item, q: Item) {
    && p.kind == q.kind
    && match q.kind
       case Line => p.width == q.width && p.pattern == q.pattern && p.factor == q.factor && SameColor(q.color, p.color)
       case Point => p.width == q.width && SameColor(q.color, p.color)
       case Triangle => p.prop == q.prop && (q.prop != Property(false, AlphaOne) || !SameColor(q.color, p.color))
       case _ => false
  }

  /** The groups of a list of items. */
  function GroupsOf(ps: seq<Item>): (gs: seq<seq<Item>>)
    ensures ps != [] && Grouped(ps[|ps| - 1]) ==>
      gs != [] && gs[|gs| - 1] != [] && gs[|gs| - 1][|gs[|gs| - 1]| - 1] == ps[|ps| - 1]
  {
    if ps == [] then []
    else
      var init, p := ps[..|ps| - 1], ps[|ps| - 1];
      var gs := GroupsOf(init);
      if init != [] && Joins(init[|init| - 1], p) then gs[|gs| - 1 := gs[|gs| - 1] + [p]]
      else if Grouped(p) then gs + [[p]]
      else gs
  }

  /** Where in the list the groups start. */
  ghost function Starts(ps: seq<Item>): (from: seq<nat>)
    ensures |from| == |GroupsOf(ps)|
  {
    if ps == [] then []
    else
      var init, p := ps[..|ps| - 1], ps[|ps| - 1];
      var from := Starts(init);
      if init != [] && Joins(init[|init| - 1], p) then from
      else if Grouped(p) then from + [|init|]
      else from
  }

  /** Group g is the stretch of the list from from[g] on, and the stretches follow each other. */
  ghost predicate AreStretches(gs: seq<seq<Item>>, from: seq<nat>, ps: seq<Item>) {
    && |from| == |gs|
    && (forall g | 0 <= g < |gs| :: IsStretch(gs[g], from[g], ps))
    && (forall g, h | 0 <= g < h < |gs| :: from[g] + |gs[g]| <= from[h])
  }

  ghost predicate IsStretch(items: seq<Item>, start: nat, ps: seq<Item>) {
    items != [] && start + |items| <= |ps| && items == ps[start..start + |items|]
  }

  /** Items i and i + 1 are in one group. */
  ghost predicate Together(gs: seq<seq<Item>>, from: seq<nat>, i: nat)
    requires |from| == |gs|
  {
    exists g :: 0 <= g < |gs| && InStretch(gs[g], from[g], i)
  }

  predicate InStretch(items: seq<Item>, start: nat, i: nat) {
    start <= i && i + 1 < start + |items|
  }

  /** What the last item does. */
  lemma LastItem(ps: seq<Item>)
    requires ps != []
    ensures var init, p := ps[..|ps| - 1], ps[|ps| - 1];
            var gs, from := GroupsOf(init), Starts(init);
            if init != [] && Joins(init[|init| - 1], p)
            then gs != [] && GroupsOf(ps) == gs[|gs| - 1 := gs[|gs| - 1] + [p]] && Starts(ps) == from
            else if Grouped(p) then GroupsOf(ps) == gs + [[p]] && Starts(ps) == from + [|init|]
            else GroupsOf(ps) == gs && Starts(ps) == from
  {
    hide SameColor;
  }

  lemma StretchGrows(items: seq<Item>, start: nat, ps: seq<Item>, p: Item)
    requires IsStretch(items, start, ps)
    ensures IsStretch(items, start, ps + [p])
    ensures start + |items| == |ps| ==> IsStretch(items + [p], start, ps + [p])
  {
  }

  lemma StretchStarts(ps: seq<Item>, p: Item)
    ensures IsStretch([p], |ps|, ps + [p])
  {
  }

  ghost predicate EndsAt(gs: seq<seq<Item>>, from: seq<nat>, n: nat)
    requires |from| == |gs|
  {
    gs != [] && from[|gs| - 1] + |gs[|gs| - 1]| == n
  }

  lemma StretchesJoin(gs: seq<seq<Item>>, from: seq<nat>, ps: seq<Item>, p: Item)
    requires AreStretches(gs, from, ps) && EndsAt(gs, from, |ps|)
    ensures var gs' := gs[|gs| - 1 := gs[|gs| - 1] + [p]];
            AreStretches(gs', from, ps + [p]) && EndsAt(gs', from, |ps| + 1)
  {
    hide IsStretch;
    var gs' := gs[|gs| - 1 := gs[|gs| - 1] + [p]];
    forall g | 0 <= g < |gs| ensures IsStretch(gs'[g], from[g], ps + [p]) {
      StretchGrows(gs[g], from[g], ps, p);
    }
  }

  lemma StretchesKeep(gs: seq<seq<Item>>, from: seq<nat>, ps: seq<Item>, p: Item)
    requires AreStretches(gs, from, ps)
    ensures AreStretches(gs, from, ps + [p])
  {
    hide IsStretch;
    forall g | 0 <= g < |gs| ensures IsStretch(gs[g], from[g], ps + [p]) {
      StretchGrows(gs[g], from[g], ps, p);
    }
  }

  lemma StretchesAdd(gs: seq<seq<Item>>, from: seq<nat>, ps: seq<Item>, p: Item)
    requires AreStretches(gs, from, ps)
    ensures AreStretches(gs + [[p]], from + [|ps|], ps + [p]) && EndsAt(gs + [[p]], from + [|ps|], |ps| + 1)
  {
    hide IsStretch;
    StretchStarts(ps, p);
    forall g | 0 <= g < |gs| ensures IsStretch(gs[g], from[g], ps + [p]) && from[g] + |gs[g]| <= |ps| {
      StretchGrows(gs[g], from[g], ps, p);
      StretchEnd(gs[g], from[g], ps);
    }
  }

  lemma NoStretches(ps: seq<Item>)
    requires ps == []
    ensures AreStretches(GroupsOf(ps), Starts(ps), ps)
  {
  }

  lemma {:induction false} GroupsAreStretches(ps: seq<Item>)
    ensures AreStretches(GroupsOf(ps), Starts(ps), ps)
    ensures ps != [] && Grouped(ps[|ps| - 1]) ==> EndsAt(GroupsOf(ps), Starts(ps), |ps|)
  {
    hide GroupsOf, Starts, AreStretches, EndsAt, Joins, Grouped;
    if ps == [] {
      NoStretches(ps);
    } else {
      var init, p := ps[..|ps| - 1], ps[|ps| - 1];
      var gs, from := GroupsOf(init), Starts(init);
      GroupsAreStretches(init);
      LastItem(ps);
      assert ps == init + [p];
      if init != [] && Joins(init[|init| - 1], p) {
        JoinsGrouped(init[|init| - 1], p);
        StretchesJoin(gs, from, init, p);
      } else if Grouped(p) {
        StretchesAdd(gs, from, init, p);
      } else {
        StretchesKeep(gs, from, init, p);
      }
    }
  }

  lemma StretchEnd(items: seq<Item>, start: nat, ps: seq<Item>)
    requires IsStretch(items, start, ps)
    ensures items != [] && start + |items| <= |ps|
  {
  }

  lemma StretchEnds(gs: seq<seq<Item>>, from: seq<nat>, ps: seq<Item>)
    requires AreStretches(gs, from, ps)
    ensures forall g | 0 <= g < |gs| :: gs[g] != [] && from[g] + |gs[g]| <= |ps|
  {
    hide IsStretch;
    forall g | 0 <= g < |gs| ensures gs[g] != [] && from[g] + |gs[g]| <= |ps| {
      StretchEnd(gs[g], from[g], ps);
    }
  }

  /** Neighbours share a group exactly if the second joins the first. */
  lemma {:induction false} TogetherIff(ps: seq<Item>, i: nat)
    requires i + 1 < |ps|
    ensures Together(GroupsOf(ps), Starts(ps), i) <==> Joins(ps[i], ps[i + 1])
  {
    hide Joins, Grouped, GroupsOf, Starts, AreStretches;
    var init, p := ps[..|ps| - 1], ps[|ps| - 1];
    var gs, from := GroupsOf(init), Starts(init);
    GroupsAreStretches(init);
    LastItem(ps);
    if Joins(init[|init| - 1], p) {
      JoinsGrouped(init[|init| - 1], p);
    }
    if i + 1 < |init| {
      TogetherIff(init, i);
    }
    StretchEnds(gs, from, init);
    assert init[i] == ps[i] && (i + 1 < |init| ==> init[i + 1] == ps[i + 1]);
    TogetherStep(gs, from, GroupsOf(ps), Starts(ps), p, |init|, Joins(init[|init| - 1], p), i);
  }

  lemma TogetherStep(gs: seq<seq<Item>>, from: seq<nat>, gs': seq<seq<Item>>, from': seq<nat>, p: Item, n: nat,
                     joins: bool, i: nat)
    requires |from| == |gs| && |from'| == |gs'| && i < n && forall g | 0 <= g < |gs| :: from[g] + |gs[g]| <= n
    requires joins ==> EndsAt(gs, from, n) && gs[|gs| - 1] != []
                       && gs' == gs[|gs| - 1 := gs[|gs| - 1] + [p]] && from' == from
    requires !joins ==> (gs' == gs && from' == from) || (gs' == gs + [[p]] && from' == from + [n])
    ensures i + 1 < n ==> (Together(gs', from', i) <==> Together(gs, from, i))
    ensures i + 1 == n ==> (Together(gs', from', i) <==> joins)
  {
    forall g | 0 <= g < |gs| && i + 1 < n ensures InStretch(gs'[g], from'[g], i) <==> InStretch(gs[g], from[g], i) {
    }
    if joins && i + 1 == n {
      assert InStretch(gs'[|gs| - 1], from'[|gs| - 1], i);
    }
  }

  ghost function ItemLists(gs: seq<Group>): (r: seq<seq<Item>>)
    ensures |r| == |gs|
  {
    seq(|gs|, g requires 0 <= g < |gs| => gs[g].items)
  }

  /** What neighbours in the list need to be in one group, item by item. */
  ghost predicate GroupedRight(gs: seq<Group>, from: seq<nat>, ps: seq<Item>) {
    && AreStretches(ItemLists(gs), from, ps)
    && forall i: nat | i + 1 < |ps| :: GroupedRightAt(ItemLists(gs), from, ps[i], ps[i + 1], i)
  }

  ghost predicate GroupedRightAt(gs: seq<seq<Item>>, from: seq<nat>, p: Item, q: Item, i: nat)
    requires |from| == |gs|
  {
    && (p.kind.Line? && q.kind.Line? ==>
          (Together(gs, from, i) <==>
           p.width == q.width && p.pattern == q.pattern && p.factor == q.factor && Close(p.color, q.color)))
    && (p.kind.Point? && q.kind.Point? ==> (Together(gs, from, i) <==> p.width == q.width && Close(p.color, q.color)))
    && (p.kind.Triangle? && q.kind.Triangle? ==>
          (Together(gs, from, i) <==>
           p.prop == q.prop && !(!q.prop.varColor && q.prop.alpha == AlphaOne && Close(p.color, q.color))))
    && (p.kind != q.kind || p.kind.Pixmap? || p.kind.Text? || p.kind.Other? ==> !Together(gs, from, i))
  }

  lemma JoinsWhen(p: Item, q: Item)
    ensures p.kind.Line? && q.kind.Line? ==>
      (Joins(p, q) <==>
       p.width == q.width && p.pattern == q.pattern && p.factor == q.factor && Close(p.color, q.color))
    ensures p.kind.Point? && q.kind.Point? ==> (Joins(p, q) <==> p.width == q.width && Close(p.color, q.color))
    ensures p.kind.Triangle? && q.kind.Triangle? ==>
      (Joins(p, q) <==> p.prop == q.prop && !(!q.prop.varColor && q.prop.alpha == AlphaOne && Close(p.color, q.color)))
    ensures p.kind != q.kind || p.kind.Pixmap? || p.kind.Text? || p.kind.Other? ==> !Joins(p, q)
  {
    assert SameColor(q.color, p.color) <==> Close(p.color, q.color);
    hide SameColor, Close;
  }

  lemma GroupingIsRight(gs: seq<Group>, ps: seq<Item>)
    requires IsGrouping(gs, ps)
    ensures GroupedRight(gs, Starts(ps), ps)
  {
    hide GroupsOf, Starts, Joins, Together, Close;
    assert ItemLists(gs) == GroupsOf(ps);
    GroupsAreStretches(ps);
    forall i: nat | i + 1 < |ps| ensures GroupedRightAt(ItemLists(gs), Starts(ps), ps[i], ps[i + 1], i) {
      TogetherIff(ps, i);
      JoinsWhen(ps[i], ps[i + 1]);
    }
  }

  ghost predicate IsGrouping(gs: seq<Group>, ps: seq<Item>) {
    |gs| == |GroupsOf(ps)| && forall i | 0 <= i < |gs| :: gs[i].items == GroupsOf(ps)[i]
  }

  /** All items of the grouped kinds are in a group, in their order. */
  lemma {:induction false} GroupsKeepItems(ps: seq<Item>)
    ensures Flatten(GroupsOf(ps)) == GroupedItems(ps)
  {
    if ps != [] {
      var init, p, gs := ps[..|ps| - 1], ps[|ps| - 1], GroupsOf(ps[..|ps| - 1]);
      GroupsKeepItems(init);
      assert (gs + [[p]])[..|gs|] == gs;
      if init != [] && Joins(init[|init| - 1], p) {
        var last := |gs| - 1;
        assert gs[last := gs[last] + [p]][..last] == gs[..last];
      }
    }
  }

  /** The items of a group have one kind; pixmaps and texts are alone; triangles have the same properties; lines have
      one width, pattern and factor, and points one width, and of these each has the color of the one before. */
  ghost predicate Uniform(items: seq<Item>) {
    && items != [] && Grouped(items[0])
    && (forall p | p in items :: p.kind == items[0].kind)
    && (items[0].kind.Pixmap? || items[0].kind.Text? ==> |items| == 1)
    && (items[0].kind.Triangle? ==> forall p | p in items :: p.prop == items[0].prop)
    && (items[0].kind.Line? || items[0].kind.Point? ==> SameStroke(items))
  }

  ghost predicate SameStroke(items: seq<Item>)
    requires items != []
  {
    && (forall p | p in items :: p.width == items[0].width)
    && (items[0].kind.Line? ==> forall p | p in items :: p.pattern == items[0].pattern && p.factor == items[0].factor)
    && forall k | 0 <= k < |items| - 1 :: Close(items[k].color, items[k + 1].color)
  }

  lemma LastOfGroup(ps: seq<Item>)
    requires ps != [] && Grouped(ps[|ps| - 1])
    ensures var gs := GroupsOf(ps); gs != [] && gs[|gs| - 1] != [] && gs[|gs| - 1][|gs[|gs| - 1]| - 1] == ps[|ps| - 1]
  {
  }

  lemma {:induction false} GroupsAreUniform(ps: seq<Item>)
    ensures forall items | items in GroupsOf(ps) :: Uniform(items)
  {
    hide SameColor;
    if ps != [] {
      var init, p := ps[..|ps| - 1], ps[|ps| - 1];
      var gs := GroupsOf(init);
      GroupsAreUniform(init);
      if init != [] && Joins(init[|init| - 1], p) {
        var last := gs[|gs| - 1];
        assert last in gs && Uniform(last) && last[|last| - 1] in last;
        LastOfGroup(init);
        JoinIsUniform(last, init[|init| - 1], p);
        hide Uniform;
        forall items | items in GroupsOf(ps) ensures Uniform(items) {
          var k :| 0 <= k < |gs| && items == GroupsOf(ps)[k];
          assert k < |gs| - 1 ==> items == gs[k];
        }
      }
    }
  }

  lemma JoinIsUniform(items: seq<Item>, p: Item, q: Item)
    requires Uniform(items) && items[|items| - 1] == p && Joins(p, q)
    ensures Uniform(items + [q])
  {
    JoinsWhen(p, q);
    hide SameColor, Close;
    assert p in items;
    if items[0].kind.Line? || items[0].kind.Point? {
      JoinStroke(items, p, q);
    }
  }

  lemma JoinStroke(items: seq<Item>, p: Item, q: Item)
    requires items != [] && SameStroke(items) && items[|items| - 1] == p && p.kind == items[0].kind
    requires p.width == q.width && Close(p.color, q.color)
    requires p.kind.Line? ==> p.pattern == q.pattern && p.factor == q.factor
    ensures SameStroke(items + [q])
  {
    hide Close;
    assert p in items;
  }

  ghost predicate Unnumbered(g: Group) {
    g.gsobjno == g.trgroupobjno == g.maskshobjno == g.shobjno == g.imobjno == g.fontobjno == -1
  }

  ghost predicate AllUniform(gs: seq<Group>) {
    forall i | 0 <= i < |gs| :: Uniform(gs[i].items) && Unnumbered(gs[i])
  }

  function Added(g: Group, p: Item): Group {
    g.(items := g.items + [p])
  }

  /** Neighbours that are drawn alike share a group. */
  method GroupListInit(primlist: seq<Item>) returns (groups: seq<Group>, ghost from: seq<nat>)
    ensures GroupedRight(groups, from, primlist) && AllUniform(groups)
    ensures IsGrouping(groups, primlist)
  {
    hide GroupsOf, SameColor, IsGrouping, GroupedRight, Starts;
    groups := [];
    var lasttype := Other(-1);
    var lastrgba := Color(-1.0, -1.0, -1.0);
    var lastpattern, lastfactor, lastwidth := 0, 0, 1.0;
    var lastprop: Property := Property(false, AlphaOne);
    var lastcolor := Color(-1.0, -1.0, -1.0);
    NothingGrouped(primlist[..0]);
    for i := 0 to |primlist|
      invariant IsGrouping(groups, primlist[..i]) && AllUnnumbered(groups)
      invariant i == 0 ==> lasttype == Other(-1)
      invariant i > 0 ==> lasttype == primlist[i - 1].kind
      invariant lasttype.Line? ==> lastpattern == primlist[i - 1].pattern && lastfactor == primlist[i - 1].factor
      invariant lasttype.Line? || lasttype.Point? ==>
        lastwidth == primlist[i - 1].width && lastrgba == primlist[i - 1].color
      invariant lasttype.Triangle? ==> lastprop == primlist[i - 1].prop && lastcolor == primlist[i - 1].color
    {
      var p := primlist[i];
      GroupsStep(groups, primlist, i);
      var join := false;
      match p.kind {
        case Pixmap =>
        case Text =>
        case Line =>
          join := !(lasttype != p.kind || lastwidth != p.width || lastpattern != p.pattern || lastfactor != p.factor
                    || !SameColor(p.color, lastrgba));
          lastpattern, lastfactor, lastwidth, lastrgba := p.pattern, p.factor, p.width, p.color;
        case Point =>
          join := !(lasttype != p.kind || lastwidth != p.width || !SameColor(p.color, lastrgba));
          lastwidth, lastrgba := p.width, p.color;
        case Triangle =>
          var notSimple := p.prop != Property(false, AlphaOne) || !SameColor(p.color, lastcolor);
          join := lasttype == p.kind && p.prop == lastprop && notSimple;
          lastprop, lastcolor := p.prop, p.color;
        case Other(_) =>
      }
      assert join <==> i > 0 && Joins(primlist[i - 1], p);
      if join {
        groups := groups[|groups| - 1 := Added(groups[|groups| - 1], p)];
      } else if Grouped(p) {
        groups := groups + [NewGroup(p)];
      }
      lasttype := p.kind;
    }
    assert primlist[..|primlist|] == primlist;
    GroupingIsUniform(groups, primlist);
    from := Starts(primlist);
    GroupingIsRight(groups, primlist);
  }

  ghost predicate AllUnnumbered(gs: seq<Group>) {
    forall i | 0 <= i < |gs| :: Unnumbered(gs[i])
  }

  lemma GroupingIsUniform(gs: seq<Group>, ps: seq<Item>)
    requires IsGrouping(gs, ps) && AllUnnumbered(gs)
    ensures AllUniform(gs)
  {
    hide GroupsOf, Uniform;
    GroupsAreUniform(ps);
  }

  lemma NothingGrouped(ps: seq<Item>)
    requires ps == []
    ensures IsGrouping([], ps)
  {
  }

  /** What one item does to the groups before it. */
  lemma GroupsStep(gs: seq<Group>, ps: seq<Item>, i: nat)
    requires i < |ps| && IsGrouping(gs, ps[..i])
    ensures if i > 0 && Joins(ps[i - 1], ps[i])
            then gs != [] && IsGrouping(gs[|gs| - 1 := Added(gs[|gs| - 1], ps[i])], ps[..i + 1])
            else IsGrouping(if Grouped(ps[i]) then gs + [NewGroup(ps[i])] else gs, ps[..i + 1])
  {
    hide Joins;
    assert ps[..i + 1][..i] == ps[..i];
    if i > 0 && Joins(ps[i - 1], ps[i]) {
      JoinsGrouped(ps[i - 1], ps[i]);
    }
  }

  lemma JoinsGrouped(p: Item, q: Item)
    requires Joins(p, q)
    ensures Grouped(p) && Grouped(q)
  {
  }

  // ----- object numbers

  /** The objects of a group, in the order in which they are written. */
  function Numbers(g: Group): seq<int>
    requires g.items != []
  {
    var p := g.items[0];
    match p.kind
    case Triangle => (if p.prop.varColor then [g.shobjno] else []) + StateNumbers(g, p.prop.alpha)
    case Pixmap => if p.rgba then [g.imobjno, g.imobjno + 1] else [g.imobjno]
    case Text => [g.fontobjno]
    case _ => []
  }

  /** The objects of a triangle group for its alpha. */
  function StateNumbers(g: Group, alpha: Alpha): seq<int> {
    match alpha
    case AlphaOne => []
    case AlphaLess => [g.gsobjno]
    case AlphaVaries => [g.gsobjno, g.trgroupobjno, g.maskshobjno]
  }

  /** The numbers from a up to b. */
  function Range(a: int, b: int): (s: seq<int>)
    requires a <= b
    ensures |s| == b - a
  {
    seq(b - a, k requires 0 <= k < b - a => a + k)
  }

  lemma RangeJoin(a: int, b: int, c: int)
    requires a <= b <= c
    ensures Range(a, c) == Range(a, b) + Range(b, c)
  {
  }

  ghost predicate IsTriangle(g: Group, varColor: bool, alpha: Alpha) {
    g.items != [] && g.items[0].kind.Triangle? && g.items[0].prop == Property(varColor, alpha)
  }

  /** The group has taken the numbers from s up to t. */
  ghost predicate Takes(g: Group, s: int, t: int) {
    s <= t && g.items != [] && multiset(Numbers(g)) == multiset(Range(s, t))
  }

  lemma PlainTakes(g: Group, s: int)
    requires IsTriangle(g, false, AlphaOne)
    ensures Takes(g, s, s)
  {
    assert Numbers(g) == [] == Range(s, s);
  }

  lemma StateTakes(g: Group, s: int)
    requires IsTriangle(g, false, AlphaLess) && g.gsobjno == s
    ensures Takes(g, s, s + 1)
  {
    assert Numbers(g) == [s] == Range(s, s + 1);
  }

  lemma MaskTakes(g: Group, s: int)
    requires IsTriangle(g, false, AlphaVaries) && g.gsobjno == s && g.trgroupobjno == s + 1 && g.maskshobjno == s + 2
    ensures Takes(g, s, s + 3)
  {
    assert Numbers(g) == [s, s + 1, s + 2] == Range(s, s + 3);
  }

  lemma ShaderTakes(g: Group, s: int)
    requires IsTriangle(g, true, AlphaOne) && g.shobjno == s
    ensures Takes(g, s, s + 1)
  {
    assert Numbers(g) == [s] == Range(s, s + 1);
  }

  lemma ShaderStateTakes(g: Group, s: int)
    requires IsTriangle(g, true, AlphaLess) && g.gsobjno == s && g.shobjno == s + 1
    ensures Takes(g, s, s + 2)
  {
    assert Numbers(g) == [s + 1, s] && Range(s, s + 2) == [s, s + 1];
  }

  lemma SwapFirst(x: int, y: int, rest: seq<int>)
    ensures multiset([x] + ([y] + rest)) == multiset([y] + ([x] + rest))
  {
  }

  lemma ShaderMaskTakes(g: Group, s: int)
    requires IsTriangle(g, true, AlphaVaries)
    requires g.gsobjno == s && g.shobjno == s + 1 && g.trgroupobjno == s + 2 && g.maskshobjno == s + 3
    ensures Takes(g, s, s + 4)
  {
    var rest := [s + 2, s + 3];
    assert Numbers(g) == [s + 1] + ([s] + rest);
    assert Range(s, s + 4) == [s] + ([s + 1] + rest);
    SwapFirst(s, s + 1, rest);
  }

  /** An object that is needed has a number from s up to t, and no other one has changed its number. */
  ghost predicate Given(before: int, after: int, needed: bool, s: nat, t: nat) {
    if needed then s <= after < t else after == before
  }

  /** A varying color needs a shader, an alpha below one a graphics state, and a varying alpha also a transparency group
      and the shader of its mask. */
  ghost predicate GivenTriangle(g0: Group, g: Group, varColor: bool, alpha: Alpha, s: nat, t: nat) {
    && Given(g0.shobjno, g.shobjno, varColor, s, t) && Given(g0.gsobjno, g.gsobjno, alpha != AlphaOne, s, t)
    && Given(g0.trgroupobjno, g.trgroupobjno, alpha == AlphaVaries, s, t)
    && Given(g0.maskshobjno, g.maskshobjno, alpha == AlphaVaries, s, t)
    && g.imobjno == g0.imobjno && g.fontobjno == g0.fontobjno
    && t == s + (if varColor then 1 else 0) + (if alpha == AlphaVaries then 3 else if alpha == AlphaLess then 1 else 0)
  }

  /** gl2psSortOutTrianglePDFgroup: the numbers of a triangle group, taken from the stack. */
  method SortOutTriangleGroup(g0: Group, stack0: nat) returns (g: Group, stack: nat)
    requires g0.items != []
    ensures g.items == g0.items && stack >= stack0
    ensures if g0.items[0].kind.Triangle? then multiset(Numbers(g)) == multiset(Range(stack0, stack))
            else g == g0 && stack == stack0
    ensures var p := g0.items[0]; p.kind.Triangle? ==>
      GivenTriangle(g0, g, p.prop.varColor, p.prop.alpha, stack0, stack)
  {
    hide Range, Numbers;
    g, stack := g0, stack0;
    var p := g0.items[0];
    if !p.kind.Triangle? {
      return;
    }
    if !p.prop.varColor && p.prop.alpha == AlphaLess {
      g := g.(gsobjno := stack);
      stack := stack + 1;
      StateTakes(g, stack0);
    } else if !p.prop.varColor && p.prop.alpha == AlphaVaries {
      g := g.(gsobjno := stack);
      stack := stack + 1;
      g := g.(trgroupobjno := stack);
      stack := stack + 1;
      g := g.(maskshobjno := stack);
      stack := stack + 1;
      MaskTakes(g, stack0);
    } else if p.prop.varColor && p.prop.alpha == AlphaOne {
      g := g.(shobjno := stack);
      stack := stack + 1;
      ShaderTakes(g, stack0);
    } else if p.prop.varColor && p.prop.alpha == AlphaLess {
      g := g.(gsobjno := stack);
      stack := stack + 1;
      g := g.(shobjno := stack);
      stack := stack + 1;
      ShaderStateTakes(g, stack0);
    } else if p.prop.varColor && p.prop.alpha == AlphaVaries {
      g := g.(gsobjno := stack);
      stack := stack + 1;
      g := g.(shobjno := stack);
      stack := stack + 1;
      g := g.(trgroupobjno := stack);
      stack := stack + 1;
      g := g.(maskshobjno := stack);
      stack := stack + 1;
      ShaderMaskTakes(g, stack0);
    } else {
      PlainTakes(g, stack0);
    }
  }

  /** The image pass: one number for a pixmap, and one more for its mask. */
  method NumberImage(g0: Group, stack0: nat) returns (g: Group, stack: nat)
    requires g0.items != []
    ensures g.items == g0.items && stack >= stack0
    ensures if g0.items[0].kind.Pixmap? then multiset(Numbers(g)) == multiset(Range(stack0, stack))
            else g == g0 && stack == stack0
    ensures g0.items[0].kind.Pixmap? ==>
      g == g0.(imobjno := stack0) && stack == stack0 + if g0.items[0].rgba then 2 else 1
  {
    g, stack := g0, stack0;
    if g.items[0].kind.Pixmap? {
      g := g.(imobjno := stack);
      stack := stack + 1;
      if g.items[0].rgba {
        stack := stack + 1;
      }
      assert Numbers(g) == Range(stack0, stack);
    }
  }

  /** The font pass. */
  method NumberFont(g0: Group, stack0: nat) returns (g: Group, stack: nat)
    requires g0.items != []
    ensures g.items == g0.items && stack >= stack0
    ensures if g0.items[0].kind.Text? then multiset(Numbers(g)) == multiset(Range(stack0, stack))
            else g == g0 && stack == stack0
    ensures g0.items[0].kind.Text? ==> g == g0.(fontobjno := stack0) && stack == stack0 + 1
  {
    g, stack := g0, stack0;
    if g.items[0].kind.Text? {
      g := g.(fontobjno := stack);
      stack := stack + 1;
      assert Numbers(g) == Range(stack0, stack);
    }
  }

  /** The numbers that the groups have after the passes for triangles, images and fonts, as far as they are done. */
  datatype Passes = Passes(triangles: bool, images: bool, fonts: bool)

  predicate Done(passes: Passes, k: Kind) {
    match k
    case Triangle => passes.triangles
    case Pixmap => passes.images
    case Text => passes.fonts
    case _ => true
  }

  ghost predicate NonEmpty(gs: seq<Group>) {
    forall i | 0 <= i < |gs| :: gs[i].items != []
  }

  ghost function Held(gs: seq<Group>, passes: Passes): multiset<int>
    requires NonEmpty(gs)
  {
    if gs == [] then multiset{} else Held(gs[..|gs| - 1], passes) + HeldBy(gs[|gs| - 1], passes)
  }

  ghost function HeldBy(g: Group, passes: Passes): multiset<int>
    requires g.items != []
  {
    if Done(passes, g.items[0].kind) then multiset(Numbers(g)) else multiset{}
  }

  lemma HeldSingle(g: Group, passes: Passes)
    requires g.items != []
    ensures Held([g], passes) == HeldBy(g, passes)
  {
    hide HeldBy;
    assert [g][..0] == [];
  }

  lemma {:induction false} HeldJoin(a: seq<Group>, b: seq<Group>, passes: Passes)
    requires NonEmpty(a) && NonEmpty(b)
    ensures Held(a + b, passes) == Held(a, passes) + Held(b, passes)
  {
    hide HeldBy;
    if b == [] {
      assert a + b == a;
    } else {
      assert (a + b)[..|a + b| - 1] == a + b[..|b| - 1];
      HeldJoin(a, b[..|b| - 1], passes);
    }
  }

  /** One group of a pass. */
  lemma HeldStep(gs: seq<Group>, i: nat, g: Group, before: Passes, after: Passes, stack0: nat, stack: nat)
    requires i < |gs| && NonEmpty(gs) && g.items == gs[i].items && stack0 <= stack
    requires Done(before, g.items[0].kind) ==> Done(after, g.items[0].kind)
    requires if Done(after, g.items[0].kind) == Done(before, g.items[0].kind)
             then g == gs[i] && stack == stack0
             else multiset(Numbers(g)) == multiset(Range(stack0, stack))
    ensures NonEmpty(gs[i := g])
    ensures Held(gs[i := g][..i + 1], after) + Held(gs[i := g][i + 1..], before)
         == Held(gs[..i], after) + Held(gs[i..], before) + multiset(Range(stack0, stack))
  {
    hide Held, HeldBy, Range, Numbers, Done;
    var gs', rest := gs[i := g], gs[i + 1..];
    assert gs'[..i + 1] == gs[..i] + [g] && gs'[i + 1..] == rest && gs[i..] == [gs[i]] + rest;
    HeldJoin(gs[..i], [g], after);
    HeldJoin([gs[i]], rest, before);
    HeldSingle(g, after);
    HeldSingle(gs[i], before);
    assert HeldBy(g, after) == HeldBy(gs[i], before) + multiset(Range(stack0, stack)) by {
      NewlyHeld(gs[i], g, before, after, stack0, stack);
    }
  }

  lemma NewlyHeld(g0: Group, g: Group, before: Passes, after: Passes, stack0: nat, stack: nat)
    requires g.items == g0.items != [] && stack0 <= stack
    requires Done(before, g.items[0].kind) ==> Done(after, g.items[0].kind)
    requires if Done(after, g.items[0].kind) == Done(before, g.items[0].kind)
             then g == g0 && stack == stack0
             else multiset(Numbers(g)) == multiset(Range(stack0, stack))
    ensures HeldBy(g, after) == HeldBy(g0, before) + multiset(Range(stack0, stack))
  {
    hide Numbers, Done;
    assert Range(stack0, stack0) == [];
  }
}
