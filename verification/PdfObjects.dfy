/** Writing the objects of an uncompressed PDF file and its cross-reference table (gl2psPrintPDFHeader,
    gl2psPDFgroupListWriteObjects and gl2psPrintPDFFooter in lib/bayesopt/matplotpp/gl2ps.c). What is printed is shown
    by its kind only, and its length is any function of that. */
module PdfObjects {
  import opened PdfGroups

  datatype Part =
    | Head | Info | Catalog | Pages | StreamStart | Preface | Drawing(items: seq<Item>) | StreamEnd
    | StreamLength(length: nat) | Page | Resources(groups: seq<Group>) | StandardState
    | Shader(number: int, group: Group, mask: bool) | SimpleState(number: int, group: Group)
    | MaskState(number: int, group: Group) | MaskGroup(number: int, group: Group)
    | Image(number: int, group: Group, mask: bool) | Font(number: int, group: Group)

  /** An object that has been started: its number, the offset, and what was printed. */
  datatype Start = Start(number: int, offset: nat, part: Part)

  /** The numbers of the objects that have been started. */
  function NumbersOf(w: seq<Start>): (s: seq<int>)
    ensures |s| == |w|
  {
    seq(|w|, k requires 0 <= k < |w| => w[k].number)
  }

  /** Every started object has its offset in the table. */
  ghost predicate Recorded(w: seq<Start>, xref: seq<int>) {
    forall k | 0 <= k < |w| :: 0 < w[k].number < |xref| && xref[w[k].number] == w[k].offset
  }

  lemma {:induction false} RangeHolds(a: int, b: int, x: int)
    requires a <= b
    ensures multiset(Range(a, b))[x] == if a <= x < b then 1 else 0
    decreases b - a
  {
    if a < b {
      RangeHolds(a, b - 1, x);
      assert Range(a, b) == Range(a, b - 1) + [b - 1];
    } else {
      assert Range(a, b) == [];
    }
  }

  lemma FreshNumber(w: seq<Start>, n: int, rest: multiset<int>, stack: nat)
    requires 1 <= stack && multiset(NumbersOf(w)) + multiset{n} + rest == multiset(Range(1, stack))
    ensures 1 <= n < stack && n !in NumbersOf(w)
  {
    RangeHolds(1, stack, n);
    var m := multiset(NumbersOf(w)) + multiset{n} + rest;
    assert m[n] == multiset(NumbersOf(w))[n] + 1 + rest[n];
    assert n in NumbersOf(w) ==> n in multiset(NumbersOf(w));
  }

  lemma StartMore(w: seq<Start>, xref: seq<int>, n: int, offs: nat, part: Part)
    requires Recorded(w, xref) && 0 < n < |xref| && n !in NumbersOf(w)
    ensures Recorded(w + [Start(n, offs, part)], xref[n := offs])
    ensures multiset(NumbersOf(w + [Start(n, offs, part)])) == multiset(NumbersOf(w)) + multiset{n}
  {
    assert NumbersOf(w + [Start(n, offs, part)]) == NumbersOf(w) + [n];
    forall k | 0 <= k < |w| ensures w[k].number != n {
      assert NumbersOf(w)[k] != n;
    }
  }

  // ----- which part has which number

  /** The objects of the header. The trailer names 1 as the information and 2 as the root. */
  ghost predicate HeadParts(w: seq<Start>) {
    && |w| >= 4
    && w[0].number == 1 && w[0].part == Info && w[1].number == 2 && w[1].part == Catalog
    && w[2].number == 3 && w[2].part == Pages && w[3].number == 4 && w[3].part == StreamStart
  }

  /** The objects of the page. The printed length is that of the data between objects 4 and 5. */
  ghost predicate PageParts(w: seq<Start>, size: Part -> nat) {
    && |w| >= 6 && HeadParts(w)
    && w[4].number == 5 && w[4].part.StreamLength? && w[5].number == 6 && w[5].part == Page
    && w[4].offset == w[3].offset + size(StreamStart) + w[4].part.length + size(StreamEnd)
  }

  /** All objects but those of the groups. */
  ghost predicate FixedParts(w: seq<Start>, size: Part -> nat) {
    |w| >= 7 && PageParts(w, size) && w[6].number == 7 && w[6].part == StandardState
  }

  lemma HeadIs(o1: nat, o2: nat, o3: nat, o4: nat)
    ensures HeadParts([] + [Start(1, o1, Info)] + [Start(2, o2, Catalog)] + [Start(3, o3, Pages)]
                      + [Start(4, o4, StreamStart)])
  {
  }

  lemma PageIs(w: seq<Start>, size: Part -> nat, length: nat, offs5: nat, offs6: nat)
    requires |w| == 4 && HeadParts(w) && offs5 == w[3].offset + size(StreamStart) + length + size(StreamEnd)
    ensures PageParts(w + [Start(5, offs5, StreamLength(length))] + [Start(6, offs6, Page)], size)
  {
  }

  lemma FixedIs(w: seq<Start>, w': seq<Start>, size: Part -> nat, offs: nat)
    requires |w| == 6 && PageParts(w, size) && w + [Start(7, offs, StandardState)] <= w'
    ensures FixedParts(w', size)
  {
    assert w'[..6] == w && w'[6] == Start(7, offs, StandardState);
    assert forall k | 0 <= k < 6 :: w'[k] == w'[..6][k];
  }

  /** The part is what the group needs under this number. */
  ghost predicate IsPartOf(g: Group, number: int, part: Part)
    requires g.items != []
  {
    var p := g.items[0];
    match part
    case Shader(n, h, mask) =>
      n == number && h == g && p.kind.Triangle?
      && if mask then p.prop.alpha == AlphaVaries && n == g.maskshobjno else p.prop.varColor && n == g.shobjno
    case SimpleState(n, h) => n == number == g.gsobjno && h == g && p.kind.Triangle? && p.prop.alpha == AlphaLess
    case MaskState(n, h) => n == number == g.gsobjno && h == g && p.kind.Triangle? && p.prop.alpha == AlphaVaries
    case MaskGroup(n, h) => n == number == g.trgroupobjno && h == g && p.kind.Triangle? && p.prop.alpha == AlphaVaries
    case Image(n, h, mask) => n == number && h == g && p.kind.Pixmap?
                              && if mask then p.rgba && n == g.imobjno + 1 else n == g.imobjno
    case Font(n, h) => n == number == g.fontobjno && h == g && p.kind.Text?
    case _ => false
  }

  /** From place i on, w lists parts of the group. */
  ghost predicate AllPartsOf(g: Group, w: seq<Start>, i: nat)
    requires g.items != []
  {
    forall k | i <= k < |w| :: IsPartOf(g, w[k].number, w[k].part)
  }

  ghost predicate IsPartOfSome(gs: seq<Group>, s: Start)
    requires NonEmpty(gs)
  {
    exists i :: 0 <= i < |gs| && IsPartOf(gs[i], s.number, s.part)
  }

  ghost predicate GroupParts(gs: seq<Group>, w: seq<Start>, i: nat)
    requires NonEmpty(gs)
  {
    forall k | i <= k < |w| :: IsPartOfSome(gs, w[k])
  }

  lemma NoGroupParts(gs: seq<Group>, w: seq<Start>)
    requires NonEmpty(gs)
    ensures GroupParts(gs, w, |w|)
  {
  }

  lemma MoreGroupParts(gs: seq<Group>, j: nat, w: seq<Start>, w': seq<Start>, i: nat)
    requires NonEmpty(gs) && j < |gs| && w <= w' && GroupParts(gs, w, i) && AllPartsOf(gs[j], w', |w|)
    ensures GroupParts(gs, w', i)
  {
    hide IsPartOf;
    forall k | i <= k < |w'| ensures IsPartOfSome(gs, w'[k]) {
      if k < |w| {
        assert w'[k] == w[k];
      }
    }
  }

  /** The groups have the same items. */
  ghost predicate SameLists(gs: seq<Group>, hs: seq<Group>) {
    |gs| == |hs| && forall i | 0 <= i < |gs| :: gs[i].items == hs[i].items
  }

  lemma UniformNonEmpty(gs: seq<Group>)
    requires AllUniform(gs)
    ensures NonEmpty(gs)
  {
  }

  lemma HeldNone(gs: seq<Group>, passes: Passes)
    requires gs == []
    ensures NonEmpty(gs) && Held(gs, passes) == multiset{}
  {
  }

  /** Before the passes no group holds a number that counts. */
  lemma {:induction false} NothingHeld(gs: seq<Group>)
    requires NonEmpty(gs)
    ensures Held(gs, Passes(false, false, false)) == multiset{}
  {
    if gs != [] {
      NothingHeld(gs[..|gs| - 1]);
    }
  }

  lemma ThreeNumbers(a: int, b: int, c: int)
    ensures multiset([a, b, c]) == multiset{a} + (multiset{b} + multiset{c})
  {
    assert [a, b, c] == [a] + ([b] + [c]);
  }

  class PdfWriter {
    const size: Part -> nat
    var position: nat
    var objectsStack: nat
    var xreflist: seq<int>
    var streamlength: nat
    var groups: seq<Group>
    ghost var started: seq<Start>

    constructor (size: Part -> nat)
      ensures this.size == size && position == 0 && started == []
    {
      this.size := size;
      position, objectsStack, xreflist, streamlength, groups, started := 0, 0, [], 0, [], [];
    }

    /** Prints to the stream, and returns the number of bytes. */
    method Print(part: Part) returns (n: nat)
      modifies `position
      ensures n == size(part) && position == old(position) + n
    {
      n := size(part);
      position := position + n;
    }

    /** Prints a part that starts an object. */
    method PrintObject(number: int, part: Part) returns (n: nat)
      modifies `position, `started
      ensures n == size(part) && position == old(position) + n
      ensures started == old(started) + [Start(number, old(position), part)]
    {
      started := started + [Start(number, position, part)];
      n := Print(part);
    }

    /** Enters the offset of an object into the table and prints the part that starts it. */
    method Enter(number: int, part: Part, offs0: nat) returns (offs: nat)
      requires offs0 == position && Recorded(started, xreflist)
      requires 0 < number < |xreflist| && number !in NumbersOf(started)
      modifies `position, `xreflist, `started
      ensures offs == position && Recorded(started, xreflist) && |xreflist| == old(|xreflist|)
      ensures NumbersOf(started) == old(NumbersOf(started)) + [number]
      ensures multiset(NumbersOf(started)) == old(multiset(NumbersOf(started))) + multiset{number}
      ensures xreflist == old(xreflist)[number := offs0]
      ensures started == old(started) + [Start(number, offs0, part)] && offs == offs0 + size(part)
    {
      StartMore(started, xreflist, number, offs0, part);
      xreflist := xreflist[number := offs0];
      var n := PrintObject(number, part);
      offs := offs0 + n;
    }

    /** Objects 1 to n - 1 have been started. */
    ghost predicate Fixed(n: nat)
      reads `xreflist, `started
    {
      1 <= n && NumbersOf(started) == Range(1, n) && Recorded(started, xreflist)
    }

    /** Enters and prints the next one of the fixed objects. */
    method EnterFixed(number: nat, part: Part, offs0: nat) returns (offs: nat)
      requires offs0 == position && Fixed(number) && number < |xreflist|
      modifies `position, `xreflist, `started
      ensures offs == position && Fixed(number + 1) && |xreflist| == old(|xreflist|)
      ensures started == old(started) + [Start(number, offs0, part)] && offs == offs0 + size(part)
    {
      hide Recorded, NumbersOf;
      RangeHolds(1, number, number);
      assert number !in multiset(Range(1, number));
      offs := Enter(number, part, offs0);
      assert Range(1, number + 1) == Range(1, number) + [number];
    }

    /** The data stream is open: object 4 has been started, and the entry of object 5 is where the data start. */
    ghost predicate InData()
      reads `xreflist, `started, `position, `streamlength
    {
      && |xreflist| == 8 && Fixed(5) && position == xreflist[5] + streamlength
      && |started| == 4 && HeadParts(started) && xreflist[5] == started[3].offset + size(StreamStart)
    }

    method PrintHeader()
      requires position == 0 && started == []
      modifies `position, `objectsStack, `xreflist, `streamlength, `started
      ensures InData() && objectsStack == 8
    {
      hide Fixed, HeadParts;
      objectsStack := 7 + 1;
      xreflist := seq(objectsStack, _ => 0);
      NothingStarted();
      var offs := Print(Head);
      ghost var o1 := offs;
      offs := EnterFixed(1, Info, offs);
      ghost var o2 := offs;
      offs := EnterFixed(2, Catalog, offs);
      ghost var o3 := offs;
      offs := EnterFixed(3, Pages, offs);
      ghost var o4 := offs;
      offs := EnterFixed(4, StreamStart, offs);
      HeadIs(o1, o2, o3, o4);
      SetEntry(5, offs);
      streamlength := Print(Preface);
    }

    lemma NothingStarted()
      requires started == []
      ensures Fixed(1)
    {
    }

    /** Sets the entry of an object that has not been started. */
    method SetEntry(n: nat, offs: nat)
      requires Fixed(n) && n < |xreflist|
      modifies `xreflist
      ensures Fixed(n) && xreflist == old(xreflist)[n := offs]
    {
      forall k | 0 <= k < |started| ensures started[k].number < n {
        assert started[k].number == NumbersOf(started)[k] == Range(1, n)[k];
      }
      xreflist := xreflist[n := offs];
    }

    /** Drawing operations go to the data stream. */
    method Draw(items: seq<Item>)
      requires InData()
      modifies `position, `streamlength
      ensures InData()
    {
      var n := Print(Drawing(items));
      streamlength := streamlength + n;
    }

    // ----- the passes that give numbers

    /** What a pass keeps: the fixed objects and the groups hold all numbers below the stack, each once. */
    ghost predicate Numbered(gs: seq<Group>, i: nat, before: Passes, after: Passes)
      reads `objectsStack
    {
      && NonEmpty(gs) && i <= |gs| && objectsStack >= 8
      && multiset(Range(1, 8)) + (Held(gs[..i], after) + Held(gs[i..], before)) == multiset(Range(1, objectsStack))
    }

    lemma PassStep(gs: seq<Group>, i: nat, g: Group, before: Passes, after: Passes, stack0: nat)
      requires stack0 <= objectsStack && i < |gs| && NonEmpty(gs) && g.items == gs[i].items && stack0 >= 8
      requires multiset(Range(1, 8)) + (Held(gs[..i], after) + Held(gs[i..], before)) == multiset(Range(1, stack0))
      requires Done(before, g.items[0].kind) ==> Done(after, g.items[0].kind)
      requires if Done(after, g.items[0].kind) == Done(before, g.items[0].kind)
               then g == gs[i] && objectsStack == stack0
               else multiset(Numbers(g)) == multiset(Range(stack0, objectsStack))
      ensures Numbered(gs[i := g], i + 1, before, after)
    {
      hide Held, Range, Numbers, Done;
      HeldStep(gs, i, g, before, after, stack0, objectsStack);
      RangeJoin(1, stack0, objectsStack);
    }

    lemma PassDone(gs: seq<Group>, before: Passes, after: Passes, next: Passes)
      requires Numbered(gs, |gs|, before, after)
      ensures Numbered(gs, 0, after, next) && NonEmpty(gs) && objectsStack >= 8
      ensures multiset(Range(1, 8)) + Held(gs, after) == multiset(Range(1, objectsStack))
    {
      hide Range, HeldBy;
      assert gs[..|gs|] == gs && gs[|gs|..] == [] && gs[..0] == [] && gs[0..] == gs;
      assert Held([], before) == multiset{} && Held([], next) == multiset{};
    }

    /** The numbers of triangles, as the main stream is written. */
    method NumberTriangles()
      requires Numbered(groups, 0, Passes(false, false, false), Passes(true, false, false))
      modifies `groups, `objectsStack
      ensures Numbered(groups, |groups|, Passes(false, false, false), Passes(true, false, false))
      ensures SameLists(groups, old(groups))
    {
      hide Held, Numbers, Numbered, Range;
      NumberedSize(groups, 0, Passes(false, false, false), Passes(true, false, false));
      for i := 0 to |groups|
        invariant SameLists(groups, old(groups))
        invariant Numbered(groups, i, Passes(false, false, false), Passes(true, false, false))
      {
        NumberedSize(groups, i, Passes(false, false, false), Passes(true, false, false));
        ghost var stack0 := objectsStack;
        var g, stack := SortOutTriangleGroup(groups[i], objectsStack);
        objectsStack := stack;
        PassStep(groups, i, g, Passes(false, false, false), Passes(true, false, false), stack0);
        groups := groups[i := g];
      }
    }

    lemma NumberedSize(gs: seq<Group>, i: nat, before: Passes, after: Passes)
      requires Numbered(gs, i, before, after)
      ensures NonEmpty(gs) && i <= |gs| && objectsStack >= 8
      ensures multiset(Range(1, 8)) + (Held(gs[..i], after) + Held(gs[i..], before)) == multiset(Range(1, objectsStack))
    {
    }

    /** The numbers of images, as the resources are written. */
    method NumberImages()
      requires Numbered(groups, 0, Passes(true, false, false), Passes(true, true, false))
      modifies `groups, `objectsStack
      ensures Numbered(groups, |groups|, Passes(true, false, false), Passes(true, true, false))
      ensures SameLists(groups, old(groups))
    {
      hide Held, Numbers, Numbered, Range;
      NumberedSize(groups, 0, Passes(true, false, false), Passes(true, true, false));
      for i := 0 to |groups|
        invariant SameLists(groups, old(groups))
        invariant Numbered(groups, i, Passes(true, false, false), Passes(true, true, false))
      {
        NumberedSize(groups, i, Passes(true, false, false), Passes(true, true, false));
        ghost var stack0 := objectsStack;
        var g, stack := NumberImage(groups[i], objectsStack);
        objectsStack := stack;
        PassStep(groups, i, g, Passes(true, false, false), Passes(true, true, false), stack0);
        groups := groups[i := g];
      }
    }

    /** The numbers of fonts. */
    method NumberFonts()
      requires Numbered(groups, 0, Passes(true, true, false), Passes(true, true, true))
      modifies `groups, `objectsStack
      ensures Numbered(groups, |groups|, Passes(true, true, false), Passes(true, true, true))
      ensures SameLists(groups, old(groups))
    {
      hide Held, Numbers, Numbered, Range;
      NumberedSize(groups, 0, Passes(true, true, false), Passes(true, true, true));
      for i := 0 to |groups|
        invariant SameLists(groups, old(groups))
        invariant Numbered(groups, i, Passes(true, true, false), Passes(true, true, true))
      {
        NumberedSize(groups, i, Passes(true, true, false), Passes(true, true, true));
        ghost var stack0 := objectsStack;
        var g, stack := NumberFont(groups[i], objectsStack);
        objectsStack := stack;
        PassStep(groups, i, g, Passes(true, true, false), Passes(true, true, true), stack0);
        groups := groups[i := g];
      }
    }

    // ----- writing

    /** Objects are being written: the table has the offsets so far, and `rest` are the numbers still to come. */
    ghost predicate Writing(rest: multiset<int>)
      reads `objectsStack, `xreflist, `started
    {
      && objectsStack >= 8 && |xreflist| == objectsStack + 1 && Recorded(started, xreflist)
      && multiset(NumbersOf(started)) + rest == multiset(Range(1, objectsStack))
    }

    /** Enters the offset and prints the object. */
    method WriteObject(number: int, part: Part, offs0: nat, ghost rest: multiset<int>) returns (offs: nat)
      requires offs0 == position && Writing(multiset{number} + rest)
      modifies `position, `xreflist, `started
      ensures offs == position && Writing(rest)
      ensures started == old(started) + [Start(number, offs0, part)]
    {
      hide Recorded, Range, NumbersOf;
      assert multiset(NumbersOf(started)) + multiset{number} + rest
          == multiset(NumbersOf(started)) + (multiset{number} + rest);
      FreshNumber(started, number, rest, objectsStack);
      offs := Enter(number, part, offs0);
    }

    method WriteTriangles(g: Group, offs0: nat, ghost rest: multiset<int>) returns (offs: nat)
      requires g.items != [] && g.items[0].kind.Triangle?
      requires offs0 == position && Writing(multiset(Numbers(g)) + rest)
      modifies `position, `xreflist, `started
      ensures offs == position && Writing(rest)
      ensures old(started) <= started && AllPartsOf(g, started, |old(started)|)
    {
      hide Writing, StateNumbers;
      offs := offs0;
      var prop := g.items[0].prop;
      ghost var states := StateNumbers(g, prop.alpha);
      if prop.varColor {
        assert Numbers(g) == [g.shobjno] + states;
        assert multiset(Numbers(g)) + rest == multiset{g.shobjno} + (multiset(states) + rest);
        offs := WriteObject(g.shobjno, Part.Shader(g.shobjno, g, false), offs, multiset(states) + rest);
      } else {
        assert Numbers(g) == [] + states == states;
      }
      offs := WriteStates(g, prop.alpha, offs, rest);
    }

    method WriteStates(g: Group, alpha: Alpha, offs0: nat, ghost rest: multiset<int>) returns (offs: nat)
      requires g.items != [] && g.items[0].kind.Triangle? && g.items[0].prop.alpha == alpha
      requires offs0 == position && Writing(multiset(StateNumbers(g, alpha)) + rest)
      modifies `position, `xreflist, `started
      ensures offs == position && Writing(rest)
      ensures old(started) <= started && AllPartsOf(g, started, |old(started)|)
    {
      hide Writing, StateNumbers;
      StateNumbersAre(g, alpha);
      offs := offs0;
      if alpha == AlphaLess {
        offs := WriteObject(g.gsobjno, SimpleState(g.gsobjno, g), offs, rest);
      } else if alpha == AlphaVaries {
        ghost var r1 := multiset{g.maskshobjno} + rest;
        ghost var r2 := multiset{g.trgroupobjno} + r1;
        MaskNumbers(g, rest);
        offs := WriteObject(g.gsobjno, MaskState(g.gsobjno, g), offs, r2);
        offs := WriteObject(g.trgroupobjno, MaskGroup(g.trgroupobjno, g), offs, r1);
        offs := WriteObject(g.maskshobjno, Part.Shader(g.maskshobjno, g, true), offs, rest);
      } else {
        assert multiset(StateNumbers(g, alpha)) + rest == rest;
      }
    }

    lemma StateNumbersAre(g: Group, alpha: Alpha)
      ensures alpha == AlphaLess ==> multiset(StateNumbers(g, alpha)) == multiset{g.gsobjno}
      ensures alpha == AlphaOne ==> StateNumbers(g, alpha) == []
    {
    }

    lemma MaskNumbers(g: Group, rest: multiset<int>)
      ensures multiset(StateNumbers(g, AlphaVaries)) + rest
           == multiset{g.gsobjno} + (multiset{g.trgroupobjno} + (multiset{g.maskshobjno} + rest))
    {
      ThreeNumbers(g.gsobjno, g.trgroupobjno, g.maskshobjno);
      var a, b, c := multiset{g.gsobjno}, multiset{g.trgroupobjno}, multiset{g.maskshobjno};
      assert (a + (b + c)) + rest == a + (b + (c + rest));
    }

    /** Writes the objects of a group: those that it has numbers for. */
    method WriteGroup(g: Group, offs0: nat, ghost rest: multiset<int>) returns (offs: nat)
      requires g.items != [] && offs0 == position && Writing(multiset(Numbers(g)) + rest)
      modifies `position, `xreflist, `started
      ensures offs == position && Writing(rest)
      ensures old(started) <= started && AllPartsOf(g, started, |old(started)|)
    {
      hide Writing;
      offs := offs0;
      var p := g.items[0];
      match p.kind {
        case Triangle =>
          offs := WriteTriangles(g, offs, rest);
        case Pixmap =>
          ghost var r := (if p.rgba then multiset{g.imobjno + 1} else multiset{}) + rest;
          assert multiset(Numbers(g)) + rest == multiset{g.imobjno} + r;
          offs := WriteObject(g.imobjno, Image(g.imobjno, g, false), offs, r);
          if p.rgba {
            offs := WriteObject(g.imobjno + 1, Image(g.imobjno + 1, g, true), offs, rest);
          } else {
            assert r == rest;
          }
        case Text =>
          assert multiset(Numbers(g)) == multiset{g.fontobjno};
          offs := WriteObject(g.fontobjno, Font(g.fontobjno, g), offs, rest);
        case _ =>
          assert multiset(Numbers(g)) + rest == rest;
      }
    }

    method WriteObjects(entryoffs: nat) returns (offs: nat)
      requires NonEmpty(groups) && entryoffs == position && Writing(Held(groups, Passes(true, true, true)))
      modifies `position, `xreflist, `started
      ensures offs == position && Writing(multiset{})
      ensures old(started) <= started && GroupParts(groups, started, |old(started)|)
    {
      hide Writing, Held, Numbers, IsPartOf, AllPartsOf, GroupParts;
      assert GroupParts(groups, started, |started|) by { NoGroupParts(groups, started); }
      offs := entryoffs;
      assert groups[0..] == groups;
      for i := 0 to |groups|
        invariant offs == position && Writing(Held(groups[i..], Passes(true, true, true)))
        invariant old(started) <= started && GroupParts(groups, started, |old(started)|)
      {
        var all := Passes(true, true, true);
        ghost var rest := Held(groups[i + 1..], all);
        assert groups[i..] == [groups[i]] + groups[i + 1..];
        HeldJoin([groups[i]], groups[i + 1..], all);
        HeldSingle(groups[i], all);
        ghost var w := started;
        offs := WriteGroup(groups[i], offs, rest);
        MoreGroupParts(groups, i, w, started, |old(started)|);
      }
      HeldNone(groups[|groups|..], Passes(true, true, true));
    }

    ghost predicate StartedAt(n: int, offset: int)
      reads `started
    {
      exists k :: 0 <= k < |started| && started[k].number == n && started[k].offset == offset
    }

    /** The cross-reference table is complete: every number from 1 up to the size is the number of exactly one object,
        and its entry is the offset at which that object starts; the position of the table itself is known as well. */
    ghost predicate Complete(table: seq<int>, startxref: int)
      reads this
    {
      && |table| == objectsStack >= 1
      && |started| == objectsStack - 1
      && (forall n | 1 <= n < objectsStack :: StartedAt(n, table[n]))
      && (forall j, k | 0 <= j < k < |started| :: started[j].number != started[k].number)
      && startxref == position
    }

    /** The objects 1 to 7 and those that the groups need have all numbers below the size, each once. */
    ghost predicate HoldAllNumbers()
      reads `groups, `objectsStack
    {
      && NonEmpty(groups) && objectsStack >= 8
      && multiset(Range(1, 8)) + Held(groups, Passes(true, true, true)) == multiset(Range(1, objectsStack))
    }

    /** The footer. Its result is the cross-reference table, where entry 0 is the free one, and the offset of the
        table. */
    method PrintFooter(primlist: seq<Item>) returns (table: seq<int>, startxref: int)
      requires InData() && objectsStack == 8
      modifies this
      ensures Complete(table, startxref)
      ensures NonEmpty(groups) && FixedParts(started, size) && GroupParts(groups, started, 7)
      ensures IsGrouping(groups, primlist) && HoldAllNumbers()
    {
      hide Held, Numbers, Range, Numbered, GroupsOf, GroupedItems, AllUniform, InData, Writing, Complete, Recorded,
        FixedParts, GroupParts, InPage, GroupedRightAt, AreStretches;
      ghost var from;
      groups, from := GroupListInit(primlist);
      StartNumbers();
      NumberTriangles();
      PassDone(groups, Passes(false, false, false), Passes(true, false, false), Passes(true, true, false));
      Draw(GroupedItems(primlist));
      var offs := PrintPage();
      NumberImages();
      PassDone(groups, Passes(true, false, false), Passes(true, true, false), Passes(true, true, true));
      NumberFonts();
      PassDone(groups, Passes(true, true, false), Passes(true, true, true), Passes(true, true, true));
      offs := PrintRest(offs);
      table := [0];
      for i := 1 to objectsStack
        invariant |table| == i && forall k | 1 <= k < i :: table[k] == xreflist[k]
        invariant objectsStack < |xreflist|
      {
        table := table + [xreflist[i]];
      }
      startxref := xreflist[objectsStack];
      WrittenIsComplete(table, startxref);
    }

    lemma StartNumbers()
      requires AllUniform(groups) && objectsStack == 8
      ensures Numbered(groups, 0, Passes(false, false, false), Passes(true, false, false))
    {
      hide Held, Range;
      UniformNonEmpty(groups);
      NothingHeld(groups);
      assert groups[..0] == [] && groups[0..] == groups;
      HeldNone(groups[..0], Passes(true, false, false));
    }

    /** Objects 1 to 6 have been started: the page is open. */
    ghost predicate InPage(offs: nat)
      reads `xreflist, `started, `position
    {
      && |xreflist| == 8 && Fixed(7) && offs == position
      && |started| == 6 && PageParts(started, size)
    }

    /** Ends the data stream, prints its length, and starts the page. */
    method PrintPage() returns (offs: nat)
      requires InData()
      modifies `position, `xreflist, `streamlength, `started
      ensures InPage(offs)
    {
      hide Fixed, HeadParts, PageParts;
      offs := xreflist[5] + streamlength;
      var n := Print(StreamEnd);
      offs := offs + n;
      ghost var offs5, length := offs, streamlength;
      offs := EnterFixed(5, StreamLength(streamlength), offs);
      streamlength := 0;
      PageIs(old(started), size, length, offs5, offs);
      offs := EnterFixed(6, Page, offs);
    }

    /** Ends the page with the resources, and prints object 7 and the objects of the groups. */
    method PrintRest(offs0: nat) returns (offs: nat)
      requires InPage(offs0) && NonEmpty(groups) && objectsStack >= 8
      requires multiset(Range(1, 8)) + Held(groups, Passes(true, true, true)) == multiset(Range(1, objectsStack))
      modifies `position, `xreflist, `started
      ensures Writing(multiset{}) && |xreflist| == objectsStack + 1 && offs == position == xreflist[objectsStack]
      ensures FixedParts(started, size) && GroupParts(groups, started, 7)
    {
      hide Held, Recorded, NumbersOf, Range, PageParts, FixedParts, GroupParts, HeadParts;
      offs := offs0;
      var n := Print(Resources(groups));
      offs := offs + n;
      xreflist := xreflist + seq(objectsStack + 1 - 8, _ => 0);
      LongerTable(old(xreflist));
      ghost var offs7 := offs;
      offs := EnterFixed(7, StandardState, offs);
      SetEntry(8, offs);
      StartWriting();
      offs := WriteObjects(xreflist[8]);
      FixedIs(old(started), started, size, offs7);
      EndEntry(offs);
      xreflist := xreflist[objectsStack := offs];
    }

    lemma LongerTable(xref: seq<int>)
      requires Recorded(started, xref) && |xref| <= |xreflist| && xreflist[..|xref|] == xref
      ensures Recorded(started, xreflist)
    {
      forall k | 0 <= k < |started| ensures xreflist[started[k].number] == started[k].offset {
        assert xreflist[started[k].number] == xreflist[..|xref|][started[k].number];
      }
    }

    lemma StartWriting()
      requires NumbersOf(started) == Range(1, 8) && Recorded(started, xreflist) && |xreflist| == objectsStack + 1
      requires NonEmpty(groups) && objectsStack >= 8
      requires multiset(Range(1, 8)) + Held(groups, Passes(true, true, true)) == multiset(Range(1, objectsStack))
      ensures Writing(Held(groups, Passes(true, true, true)))
    {
    }

    /** The last entry belongs to no object. */
    lemma EndEntry(x: int)
      requires Writing(multiset{})
      ensures |xreflist| == objectsStack + 1 && Recorded(started, xreflist[objectsStack := x])
      ensures multiset(NumbersOf(started)) + multiset{} == multiset(Range(1, objectsStack)) && objectsStack >= 8
    {
      forall k | 0 <= k < |started| ensures started[k].number < objectsStack {
        RangeHolds(1, objectsStack, started[k].number);
        assert NumbersOf(started)[k] in multiset(NumbersOf(started)) + multiset{};
      }
    }

    lemma WrittenIsComplete(table: seq<int>, startxref: int)
      requires Writing(multiset{}) && startxref == position
      requires |table| == objectsStack && forall k | 1 <= k < objectsStack :: table[k] == xreflist[k]
      ensures Complete(table, startxref)
    {
      var ns := NumbersOf(started);
      assert multiset(ns) + multiset{} == multiset(ns);
      assert |ns| == |multiset(ns)| == |multiset(Range(1, objectsStack))| == |Range(1, objectsStack)|;
      forall n | 1 <= n < objectsStack ensures StartedAt(n, table[n]) {
        RangeHolds(1, objectsStack, n);
        assert n in ns;
        var k :| 0 <= k < |ns| && ns[k] == n;
        assert started[k].number == n && started[k].offset == table[n];
      }
      forall j, k | 0 <= j < k < |started| ensures started[j].number != started[k].number {
        RangeHolds(1, objectsStack, ns[j]);
        OnceOnly(ns, j, k);
      }
    }
  }

  /** What occurs at two places occurs at least twice. */
  lemma OnceOnly(ns: seq<int>, j: nat, k: nat)
    requires j < k < |ns| && multiset(ns)[ns[j]] <= 1
    ensures ns[j] != ns[k]
  {
    assert ns == ns[..k] + [ns[k]] + ns[k + 1..];
    assert ns[..k][j] == ns[j];
    assert ns[j] in multiset(ns[..k]);
    assert multiset(ns) == multiset(ns[..k]) + multiset{ns[k]} + multiset(ns[k + 1..]);
  }
}
